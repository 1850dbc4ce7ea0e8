/** Pipes: the ring of bytes between writers and readers, with 32-bit counts that wrap around. A
    call runs in stretches under the lock of the pipe, from acquire or the return from a sleep to
    the next sleep or release. */
module Pipe {
  import S = Sleepers

  const WRAP := 0x1_0000_0000

  /** How a stretch ends: the call returns r, or the process sleeps and comes back. */
  datatype End = Returns(r: int) | Sleeps

  class Pipe {
    const data: array<int>
    var nread: nat
    var nwrite: nat
    var readopen: bool
    var writeopen: bool

    // All bytes ever written, and how many of them were read.
    ghost var sent: seq<int>
    ghost var taken: nat

    constructor ()
      ensures Valid() && fresh(data) && sent == [] && taken == 0 && readopen && writeopen
    {
      data := new int[S.PIPESIZE];
      nread, nwrite, readopen, writeopen, sent, taken := 0, 0, true, true, [], 0;
    }

    ghost predicate Valid()
      reads this, data
    {
      && data.Length == S.PIPESIZE && nread == taken % WRAP && nwrite == |sent| % WRAP
      && taken <= |sent| <= taken + S.PIPESIZE
      && forall k :: taken <= k < |sent| ==> data[k % S.PIPESIZE] == sent[k]
    }

    /** What the sleepers on the pipe wait for. */
    ghost function View(): S.PipeState
      reads this
    {
      S.PipeState(taken, |sent|, readopen, writeopen)
    }

    /** One stretch of pipewrite, from byte i of `src` on. The first `avail` bytes can be copied in,
        and the writer is found killed after `live` turns of the loop. */
    method Write(src: seq<int>, from: nat, avail: nat, live: nat) returns (i: nat, end: End)
      requires Valid() && from <= |src|
      modifies this`nwrite, this`sent, data
      ensures Valid() && from <= i <= |src| && sent == old(sent) + src[from..i]
      ensures i == from || (i <= avail && i - from <= live && readopen)
      ensures end == if i == |src| then Returns(i)
                     else if !readopen || i - from == live then Returns(-1)
                     else if |sent| == taken + S.PIPESIZE then Sleeps
                     else Returns(i)
      ensures end == Returns(i) ==> i == |src| || avail <= i
      ensures var code := if end == Returns(-1) then S.PutKilled(i - from) else S.Put(i - from);
              S.PipeRuns(old(View()), code) && View() == S.PipeAfterwards(old(View()), code)
    {
      i := from;
      while i < |src|
        invariant Valid() && from <= i <= |src| && sent == old(sent) + src[from..i] && i - from <= live
        invariant i > from ==> readopen && i <= avail
      {
        if !readopen || i - from >= live { return i, Returns(-1); }
        FullIs(nread, nwrite, taken, |sent|);
        if nwrite == (nread + S.PIPESIZE) % WRAP { return i, Sleeps; }
        if i >= avail { break; }
        Put(src[i]);
        assert src[from..i + 1] == src[from..i] + [src[i]];
        i := i + 1;
      }
      end := Returns(i);
    }

    /** One stretch of piperead, for n bytes, of which the first `avail` can be copied out; `killed`
        is what the reader finds if the pipe is empty. A byte that cannot be copied out stays. */
    method Read(n: nat, avail: nat, killed: bool) returns (out: seq<int>, end: End)
      requires Valid()
      modifies this`nread, this`taken
      ensures Valid() && taken == old(taken) + |out| && out == sent[old(taken)..taken]
      ensures var have := |sent| - old(taken);
              if have == 0 && writeopen then out == [] && end == if killed then Returns(-1) else Sleeps
              else
                && |out| == Least(n, Least(have, avail))
                && end == Returns(if avail == 0 && n > 0 && have > 0 then -1 else |out|)
      ensures View() == S.PipeAfterwards(old(View()), S.Take(|out|)) && S.PipeRuns(old(View()), S.Take(|out|))
    {
      FullIs(nread, nwrite, taken, |sent|);
      if nread == nwrite && writeopen { return [], if killed then Returns(-1) else Sleeps; }
      var failed;
      out, failed := Drain(n, avail);
      end := Returns(if failed && |out| == 0 then -1 else |out|);
    }

    /** The loop of piperead; `failed` if it ends at a byte that cannot be copied out. */
    method Drain(n: nat, avail: nat) returns (out: seq<int>, failed: bool)
      requires Valid()
      modifies this`nread, this`taken
      ensures Valid() && taken == old(taken) + |out| && out == sent[old(taken)..taken]
      ensures |out| == Least(n, Least(|sent| - old(taken), avail))
      ensures failed <==> |out| == avail < n && taken < |sent|
    {
      out := [];
      while |out| < n
        invariant Valid() && taken == old(taken) + |out| && out == sent[old(taken)..taken]
        invariant |out| <= n && |out| <= avail
      {
        FullIs(nread, nwrite, taken, |sent|);
        if nread == nwrite { break; }
        if |out| >= avail { return out, true; }
        assert sent[old(taken)..taken + 1] == sent[old(taken)..taken] + [sent[taken]];
        var x := Take();
        out := out + [x];
      }
      failed := false;
    }

    /** One byte out of the ring. */
    method Take() returns (x: int)
      requires Valid() && taken < |sent|
      modifies this`nread, this`taken
      ensures Valid() && taken == old(taken) + 1 && x == sent[old(taken)]
    {
      Slots(nread, taken);
      x := data[nread % S.PIPESIZE];
      nread, taken := (nread + 1) % WRAP, taken + 1;
    }

    /** pipeclose. */
    method Close(writable: bool)
      requires Valid()
      modifies this`readopen, this`writeopen
      ensures Valid()
      ensures View() == S.PipeAfterwards(old(View()), if writable then S.CloseWriter else S.CloseReader)
    {
      if writable { writeopen := false; } else { readopen := false; }
    }

    /** Any stretches of any writers and readers, in any order; `moved` are the bytes that each of
        them moved. What is read is what was written: no byte is lost, doubled, changed or
        overtaken, and never more than PIPESIZE bytes are on the way. */
    method Run(events: seq<Event>) returns (moved: seq<seq<int>>)
      requires Valid() && sent == [] && taken == 0
      modifies this, data
      ensures Valid() && |moved| == |events|
      ensures forall k :: 0 <= k < |events| ==> Moves(events[k], moved[k])
      ensures Written(events, moved) == sent && Taken(events, moved) == sent[..taken] && |sent| <= taken + S.PIPESIZE
    {
      moved := [];
      assert sent == Written(events[..0], moved) && sent[..taken] == Taken(events[..0], moved);
      hide Written, Taken, Moves, Valid;
      for k := 0 to |events|
        invariant Valid() && |moved| == k && taken <= |sent|
        invariant forall j :: 0 <= j < k ==> Moves(events[j], moved[j])
        invariant Written(events[..k], moved) == sent && Taken(events[..k], moved) == sent[..taken]
      {
        ghost var was, before := sent, taken;
        var m := Happen(events[k]);
        MovedMore(events, moved, k, m);
        Bytes(was, before, sent, taken, events[k], m);
        moved := moved + [m];
      }
      assert events[..|events|] == events;
      Room();
    }

    lemma Room()
      requires Valid()
      ensures |sent| <= taken + S.PIPESIZE
    {
    }

    /** One stretch. */
    method Happen(e: Event) returns (m: seq<int>)
      requires Valid()
      modifies this, data
      ensures Valid() && Moves(e, m) && taken <= |sent|
      ensures if e.Writes? then sent == old(sent) + m else sent == old(sent)
      ensures if e.Reads? then taken == old(taken) + |m| && m == sent[old(taken)..taken] else taken == old(taken)
    {
      m := [];
      match e
      case Writes(src, from, avail, live) =>
        if from <= |src| {
          var i, _ := Write(src, from, avail, live);
          m := src[from..i];
        }
      case Reads(n, avail, killed) =>
        var out, _ := Read(n, avail, killed);
        m := out;
      case Closes(writable) => Close(writable);
    }

    /** One byte into the ring. */
    method Put(x: int)
      requires Valid() && |sent| < taken + S.PIPESIZE
      modifies this`nwrite, this`sent, data
      ensures Valid() && sent == old(sent) + [x]
    {
      Slots(nwrite, |sent|);
      ghost var n := |sent|;
      data[nwrite % S.PIPESIZE] := x;
      sent, nwrite := sent + [x], (nwrite + 1) % WRAP;
      forall k | taken <= k < |sent| ensures data[k % S.PIPESIZE] == sent[k] {
        if k < n { OtherSlot(k, n); }
      }
    }

    lemma Slots(count: nat, n: nat)
      requires count == n % WRAP
      ensures count % S.PIPESIZE == n % S.PIPESIZE && (count + 1) % WRAP == (n + 1) % WRAP
    {
    }

    lemma OtherSlot(k: nat, n: nat)
      requires k < n < k + S.PIPESIZE
      ensures k % S.PIPESIZE != n % S.PIPESIZE
    {
    }

    /** The tests for a full and an empty ring are right although the counts wrap around. */
    lemma FullIs(nread: nat, nwrite: nat, taken: nat, n: nat)
      requires nread == taken % WRAP && nwrite == n % WRAP && taken <= n <= taken + S.PIPESIZE
      ensures nwrite == (nread + S.PIPESIZE) % WRAP <==> n == taken + S.PIPESIZE
      ensures nread == nwrite <==> n == taken
    {
    }
  }

  function Least(a: nat, b: nat): nat {
    if a < b then a else b
  }

  datatype Event =
    | Writes(src: seq<int>, from: nat, avail: nat, live: nat)
    | Reads(n: nat, avail: nat, killed: bool)
    | Closes(writable: bool)

  /** A writer moves bytes of its own, from where it is, and a reader at most what it asks for. */
  predicate Moves(e: Event, m: seq<int>) {
    match e
    case Writes(src, from, _, _) => if from <= |src| then m <= src[from..] else m == []
    case Reads(n, avail, _) => |m| <= Least(n, avail)
    case Closes(_) => m == []
  }

  /** All bytes that went in, and all that came out, in order. */
  function Written(events: seq<Event>, moved: seq<seq<int>>): seq<int>
    requires |events| == |moved|
  {
    if events == [] then []
    else
      var n := |events| - 1;
      Written(events[..n], moved[..n]) + if events[n].Writes? then moved[n] else []
  }

  function Taken(events: seq<Event>, moved: seq<seq<int>>): seq<int>
    requires |events| == |moved|
  {
    if events == [] then []
    else
      var n := |events| - 1;
      Taken(events[..n], moved[..n]) + if events[n].Reads? then moved[n] else []
  }

  lemma Bytes(was: seq<int>, before: nat, sent: seq<int>, taken: nat, e: Event, m: seq<int>)
    requires before <= |was| && taken <= |sent|
    requires if e.Writes? then sent == was + m else sent == was
    requires if e.Reads? then taken == before + |m| && m == sent[before..taken] else taken == before
    ensures was + (if e.Writes? then m else []) == sent
    ensures was[..before] + (if e.Reads? then m else []) == sent[..taken]
  {
  }

  lemma MovedMore(events: seq<Event>, moved: seq<seq<int>>, k: nat, m: seq<int>)
    requires k < |events| && |moved| == k
    ensures Written(events[..k + 1], moved + [m]) == Written(events[..k], moved) + if events[k].Writes? then m else []
    ensures Taken(events[..k + 1], moved + [m]) == Taken(events[..k], moved) + if events[k].Reads? then m else []
  {
    assert events[..k + 1][..k] == events[..k] && (moved + [m])[..k] == moved;
  }
}
