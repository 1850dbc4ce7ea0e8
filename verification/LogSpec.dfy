/** What the physical redo log writes to disk, one atomic block write at a time, and what
    recovery makes of the disk when the machine stops between any two of those writes. */
module LogSpec {
  import opened Blocks

  const MAXOPBLOCKS := 10
  const LOGBLOCKS := 30      // MAXOPBLOCKS * 3

  /** The on-disk log: a header block at `start`, then LOGBLOCKS data blocks. */
  predicate InLog(start: nat, b: nat) {
    start <= b <= start + LOGBLOCKS
  }

  predicate LogFits(d: Disk, start: nat) {
    start + LOGBLOCKS < |d|
  }

  /** A log header lists distinct home blocks, all outside the log. */
  predicate Targets(lh: seq<Word>, start: nat, size: nat) {
    && |lh| <= LOGBLOCKS
    && (forall i :: 0 <= i < |lh| ==> lh[i] < size && !InLog(start, lh[i]))
    && (forall i, j :: 0 <= i < j < |lh| ==> lh[i] != lh[j])
  }

  // ---- The header block ----

  function HeaderCount(h: Block): nat {
    WordAt(h, 0)
  }

  function HeaderList(h: Block): (lh: seq<Word>)
    requires HeaderCount(h) <= LOGBLOCKS
    ensures |lh| == HeaderCount(h)
    ensures forall i :: 0 <= i < |lh| ==> lh[i] == WordAt(h, i + 1)
  {
    seq(HeaderCount(h), i requires 0 <= i < HeaderCount(h) => WordAt(h, i + 1))
  }

  /** `hb->block[i] = lh.block[i]` for i below k; later entries keep what was there. */
  function PutEntries(h: Block, lh: seq<Word>, k: nat): (r: Block)
    requires k <= |lh| <= LOGBLOCKS
    ensures HeaderCount(r) == HeaderCount(h)
    ensures forall i :: 0 <= i < k ==> WordAt(r, i + 1) == lh[i]
  {
    if k == 0 then h else PutWord(PutEntries(h, lh, k - 1), k, lh[k - 1])
  }

  /** The header block that write_head stores over the old header `h`. */
  function EncodeHeader(h: Block, lh: seq<Word>): (r: Block)
    requires |lh| <= LOGBLOCKS
    ensures HeaderCount(r) == |lh| && HeaderList(r) == lh
  {
    PutEntries(PutWord(h, 0, |lh|), lh, |lh|)
  }

  // ---- The disk after each write ----

  /** write_log: the disk after the first k logged blocks were copied, from their cached
      contents in `mem`, into the log. */
  function LogAfter(d: Disk, mem: Disk, start: nat, lh: seq<Word>, k: nat): (r: Disk)
    requires LogFits(d, start) && |mem| == |d| && Targets(lh, start, |d|) && k <= |lh|
    ensures |r| == |d|
  {
    if k == 0 then d else LogAfter(d, mem, start, lh, k - 1)[start + k := mem[lh[k - 1]]]
  }

  /** install_trans: the disk after the first k log blocks were copied to their home blocks. */
  function InstallAfter(d: Disk, start: nat, lh: seq<Word>, k: nat): (r: Disk)
    requires LogFits(d, start) && Targets(lh, start, |d|) && k <= |lh|
    ensures |r| == |d|
  {
    if k == 0 then d
    else var p := InstallAfter(d, start, lh, k - 1); p[lh[k - 1] := p[start + k]]
  }

  /** write_head. */
  function WithHeader(d: Disk, start: nat, lh: seq<Word>): (r: Disk)
    requires LogFits(d, start) && |lh| <= LOGBLOCKS
    ensures |r| == |d| && HeaderCount(r[start]) == |lh| && HeaderList(r[start]) == lh
  {
    d[start := EncodeHeader(d[start], lh)]
  }

  /** The disk right after the header write of a commit. */
  function Committed(d: Disk, mem: Disk, start: nat, lh: seq<Word>): (r: Disk)
    requires LogFits(d, start) && |mem| == |d| && Targets(lh, start, |d|)
    ensures |r| == |d|
  {
    WithHeader(LogAfter(d, mem, start, lh, |lh|), start, lh)
  }

  /** The disk after the first k block writes of a commit of the blocks listed in `lh`:
      n log-block writes, the header, n home-block writes, the cleared header. */
  function CommitAfter(d: Disk, mem: Disk, start: nat, lh: seq<Word>, k: nat): (r: Disk)
    requires LogFits(d, start) && |mem| == |d| && Targets(lh, start, |d|)
    requires k <= 2 * |lh| + 2
    ensures |r| == |d|
  {
    var n := |lh|;
    if k <= n then LogAfter(d, mem, start, lh, k)
    else
      var committed := Committed(d, mem, start, lh);
      if k <= 2 * n + 1 then InstallAfter(committed, start, lh, k - n - 1)
      else WithHeader(InstallAfter(committed, start, lh, n), start, [])
  }

  /** The disk after the first k block writes of recovery. */
  function RecoverAfter(d: Disk, start: nat, k: nat): (r: Disk)
    requires Recoverable(d, start)
    requires k <= HeaderCount(d[start]) + 1
    ensures |r| == |d|
  {
    var lh := HeaderList(d[start]);
    if k <= |lh| then InstallAfter(d, start, lh, k)
    else WithHeader(InstallAfter(d, start, lh, |lh|), start, [])
  }

  /** The disk holds a log that recovery can read. */
  predicate Recoverable(d: Disk, start: nat) {
    && LogFits(d, start)
    && HeaderCount(d[start]) <= LOGBLOCKS
    && Targets(HeaderList(d[start]), start, |d|)
  }

  /** The disk once recovery has run to its end. */
  function Recovered(d: Disk, start: nat): (r: Disk)
    requires Recoverable(d, start)
    ensures |r| == |d|
  {
    RecoverAfter(d, start, HeaderCount(d[start]) + 1)
  }

  /** Two disks agree on every block outside the log. */
  predicate SameHome(d: Disk, e: Disk, start: nat) {
    && |d| == |e|
    && forall b: nat :: b < |d| && !InLog(start, b) ==> d[b] == e[b]
  }

  /** The cached state `mem` differs from the disk only on blocks listed in `lh`. */
  predicate OnlyLogged(d: Disk, mem: Disk, start: nat, lh: seq<Word>) {
    && |mem| == |d|
    && forall b: nat :: b < |d| && !InLog(start, b) && b !in lh ==> mem[b] == d[b]
  }

  // ---- Block by block ----

  lemma {:induction false} LogAfterAt(d: Disk, mem: Disk, start: nat, lh: seq<Word>, k: nat, b: nat)
    requires LogFits(d, start) && |mem| == |d| && Targets(lh, start, |d|) && k <= |lh| && b < |d|
    ensures LogAfter(d, mem, start, lh, k)[b]
            == if start < b <= start + k then mem[lh[b - start - 1]] else d[b]
  {
    if k > 0 {
      LogAfterAt(d, mem, start, lh, k - 1, b);
    }
  }

  lemma {:induction false} InstallAfterOther(d: Disk, start: nat, lh: seq<Word>, k: nat, b: nat)
    requires LogFits(d, start) && Targets(lh, start, |d|) && k <= |lh| && b < |d|
    requires b !in lh[..k]
    ensures InstallAfter(d, start, lh, k)[b] == d[b]
  {
    if k > 0 {
      assert lh[..k] == lh[..k - 1] + [lh[k - 1]];
      InstallAfterOther(d, start, lh, k - 1, b);
    }
  }

  lemma {:induction false} InstallAfterHome(d: Disk, start: nat, lh: seq<Word>, k: nat, i: nat)
    requires LogFits(d, start) && Targets(lh, start, |d|) && k <= |lh| && i < k
    ensures InstallAfter(d, start, lh, k)[lh[i]] == d[start + i + 1]
  {
    if i == k - 1 {
      InstallAfterOther(d, start, lh, k - 1, start + k);
    } else {
      InstallAfterHome(d, start, lh, k - 1, i);
    }
  }

  lemma InstallAfterAt(d: Disk, start: nat, lh: seq<Word>, k: nat, i: nat)
    requires LogFits(d, start) && Targets(lh, start, |d|) && k <= |lh| && i < |lh|
    ensures InstallAfter(d, start, lh, k)[lh[i]] == if i < k then d[start + i + 1] else d[lh[i]]
  {
    if i < k {
      InstallAfterHome(d, start, lh, k, i);
    } else {
      InstallAfterOther(d, start, lh, k, lh[i]);
    }
  }

  lemma CommittedAt(d: Disk, mem: Disk, start: nat, lh: seq<Word>, b: nat)
    requires LogFits(d, start) && |mem| == |d| && Targets(lh, start, |d|) && b < |d| && b != start
    ensures Committed(d, mem, start, lh)[b]
            == if start < b <= start + |lh| then mem[lh[b - start - 1]] else d[b]
  {
    LogAfterAt(d, mem, start, lh, |lh|, b);
  }

  /** After its header write a commit is an install; its last write touches the header only. */
  lemma CommitAfterInstall(d: Disk, mem: Disk, start: nat, lh: seq<Word>, k: nat, b: nat)
    requires LogFits(d, start) && |mem| == |d| && Targets(lh, start, |d|)
    requires |lh| < k <= 2 * |lh| + 2 && b < |d| && b != start
    ensures var j := if k == 2 * |lh| + 2 then |lh| else k - |lh| - 1;
            CommitAfter(d, mem, start, lh, k)[b] == InstallAfter(Committed(d, mem, start, lh), start, lh, j)[b]
  {
  }

  lemma CommitAfterHeader(d: Disk, mem: Disk, start: nat, lh: seq<Word>, k: nat)
    requires LogFits(d, start) && |mem| == |d| && Targets(lh, start, |d|)
    requires k <= 2 * |lh| + 2
    ensures var h := CommitAfter(d, mem, start, lh, k)[start];
            && (k <= |lh| ==> h == d[start])
            && (|lh| < k <= 2 * |lh| + 1 ==> HeaderCount(h) == |lh| && HeaderList(h) == lh)
            && (k == 2 * |lh| + 2 ==> HeaderCount(h) == 0)
  {
    if k <= |lh| {
      LogAfterAt(d, mem, start, lh, k, start);
    } else if k < 2 * |lh| + 2 {
      InstallAfterOther(Committed(d, mem, start, lh), start, lh, k - |lh| - 1, start);
    }
  }

  lemma CommitAfterLog(d: Disk, mem: Disk, start: nat, lh: seq<Word>, k: nat, i: nat)
    requires LogFits(d, start) && |mem| == |d| && Targets(lh, start, |d|)
    requires k <= 2 * |lh| + 2
    requires i < k && i < |lh|
    ensures CommitAfter(d, mem, start, lh, k)[start + i + 1] == mem[lh[i]]
  {
    hide WordAt, PutWord, PutEntries, EncodeHeader;
    var b := start + i + 1;
    if k <= |lh| {
      LogAfterAt(d, mem, start, lh, k, b);
    } else {
      CommittedAt(d, mem, start, lh, b);
      CommitAfterInstall(d, mem, start, lh, k, b);
      InstallAfterOther(Committed(d, mem, start, lh), start, lh, if k == 2 * |lh| + 2 then |lh| else k - |lh| - 1, b);
    }
  }

  lemma CommitAfterHome(d: Disk, mem: Disk, start: nat, lh: seq<Word>, k: nat, i: nat)
    requires LogFits(d, start) && |mem| == |d| && Targets(lh, start, |d|)
    requires k <= 2 * |lh| + 2
    requires i < |lh|
    ensures CommitAfter(d, mem, start, lh, k)[lh[i]] == if i + |lh| + 1 < k then mem[lh[i]] else d[lh[i]]
  {
    hide WordAt, PutWord, PutEntries, EncodeHeader;
    var b := lh[i];
    assert !InLog(start, b);
    if k <= |lh| {
      LogAfterAt(d, mem, start, lh, k, b);
    } else {
      var e := Committed(d, mem, start, lh);
      var j := if k == 2 * |lh| + 2 then |lh| else k - |lh| - 1;
      assert e[b] == d[b] by { CommittedAt(d, mem, start, lh, b); }
      assert e[start + i + 1] == mem[b] by { CommittedAt(d, mem, start, lh, start + i + 1); }
      assert CommitAfter(d, mem, start, lh, k)[b] == InstallAfter(e, start, lh, j)[b] by {
        CommitAfterInstall(d, mem, start, lh, k, b);
      }
      InstallAfterAt(e, start, lh, j, i);
    }
  }

  lemma CommitAfterOther(d: Disk, mem: Disk, start: nat, lh: seq<Word>, k: nat, b: nat)
    requires LogFits(d, start) && |mem| == |d| && Targets(lh, start, |d|)
    requires k <= 2 * |lh| + 2
    requires b < |d| && !InLog(start, b) && b !in lh
    ensures CommitAfter(d, mem, start, lh, k)[b] == d[b]
  {
    if k <= |lh| {
      LogAfterAt(d, mem, start, lh, k, b);
    } else {
      CommittedAt(d, mem, start, lh, b);
      CommitAfterInstall(d, mem, start, lh, k, b);
      InstallAfterOther(Committed(d, mem, start, lh), start, lh, if k == 2 * |lh| + 2 then |lh| else k - |lh| - 1, b);
    }
  }

  lemma RecoverAfterHeader(d: Disk, start: nat, k: nat)
    requires Recoverable(d, start)
    requires k <= HeaderCount(d[start]) + 1
    ensures var h := RecoverAfter(d, start, k)[start];
            if k <= HeaderCount(d[start]) then h == d[start] else HeaderCount(h) == 0
  {
    if k <= HeaderCount(d[start]) {
      InstallAfterOther(d, start, HeaderList(d[start]), k, start);
    }
  }

  lemma RecoverAfterOther(d: Disk, start: nat, k: nat, b: nat)
    requires Recoverable(d, start)
    requires k <= HeaderCount(d[start]) + 1
    requires b < |d| && b != start && b !in HeaderList(d[start])
    ensures RecoverAfter(d, start, k)[b] == d[b]
  {
    var lh := HeaderList(d[start]);
    InstallAfterOther(d, start, lh, if k <= |lh| then k else |lh|, b);
  }

  /** What recovery leaves in the i-th listed block: the i-th log block. */
  lemma RecoveredListed(d: Disk, start: nat, i: nat)
    requires Recoverable(d, start)
    requires i < HeaderCount(d[start])
    ensures Recovered(d, start)[HeaderList(d[start])[i]] == d[start + i + 1]
  {
    var lh := HeaderList(d[start]);
    InstallAfterHome(d, start, lh, |lh|, i);
  }

  /** Recovery touches no home block that the header does not list. */
  lemma RecoveredUnlisted(d: Disk, start: nat, b: nat)
    requires Recoverable(d, start)
    requires b < |d| && !InLog(start, b) && b !in HeaderList(d[start])
    ensures Recovered(d, start)[b] == d[b]
  {
    RecoverAfterOther(d, start, HeaderCount(d[start]) + 1, b);
  }

  // ---- Crash atomicity ----

  lemma CommitCrashBlock(d: Disk, mem: Disk, start: nat, lh: seq<Word>, k: nat, b: nat)
    requires LogFits(d, start) && HeaderCount(d[start]) == 0
    requires Targets(lh, start, |d|) && OnlyLogged(d, mem, start, lh)
    requires k <= 2 * |lh| + 2
    requires b < |d| && !InLog(start, b)
    requires Recoverable(CommitAfter(d, mem, start, lh, k), start)
    ensures Recovered(CommitAfter(d, mem, start, lh, k), start)[b] == if k <= |lh| then d[b] else mem[b]
  {
    hide WordAt, PutWord, PutEntries, EncodeHeader;
    var r := CommitAfter(d, mem, start, lh, k);
    CommitAfterHeader(d, mem, start, lh, k);
    if b !in lh {
      CommitAfterOther(d, mem, start, lh, k, b);
      RecoveredUnlisted(r, start, b);
    } else {
      var i :| 0 <= i < |lh| && lh[i] == b;
      CommitAfterHome(d, mem, start, lh, k, i);
      if |lh| < k < 2 * |lh| + 2 {
        CommitAfterLog(d, mem, start, lh, k, i);
        RecoveredListed(r, start, i);
      } else {
        RecoveredUnlisted(r, start, b);
      }
    }
  }

  /** Stop the commit after any k of its writes: what recovery then produces is the old
      state if the header write had not been done, and the new state if it had. */
  lemma CommitCrashIsAtomic(d: Disk, mem: Disk, start: nat, lh: seq<Word>, k: nat)
    requires LogFits(d, start) && HeaderCount(d[start]) == 0
    requires Targets(lh, start, |d|) && OnlyLogged(d, mem, start, lh)
    requires k <= 2 * |lh| + 2
    ensures var r := CommitAfter(d, mem, start, lh, k);
            && Recoverable(r, start)
            && SameHome(Recovered(r, start), if k <= |lh| then d else mem, start)
  {
    hide WordAt, PutWord, PutEntries, EncodeHeader;
    CommitAfterHeader(d, mem, start, lh, k);
    forall b: nat | b < |d| && !InLog(start, b)
      ensures Recovered(CommitAfter(d, mem, start, lh, k), start)[b] == if k <= |lh| then d[b] else mem[b]
    {
      CommitCrashBlock(d, mem, start, lh, k, b);
    }
  }

  lemma RecoverCrashBlock(d: Disk, start: nat, k: nat, b: nat)
    requires Recoverable(d, start)
    requires k <= HeaderCount(d[start]) + 1
    requires b < |d| && !InLog(start, b)
    requires Recoverable(RecoverAfter(d, start, k), start)
    ensures Recovered(RecoverAfter(d, start, k), start)[b] == Recovered(d, start)[b]
  {
    hide WordAt, PutWord, PutEntries, EncodeHeader;
    var r := RecoverAfter(d, start, k);
    var lh := HeaderList(d[start]);
    RecoverAfterHeader(d, start, k);
    if b !in lh {
      RecoverAfterOther(d, start, k, b);
      RecoveredUnlisted(d, start, b);
      RecoveredUnlisted(r, start, b);
    } else {
      var i :| 0 <= i < |lh| && lh[i] == b;
      RecoveredListed(d, start, i);
      if k <= |lh| {
        RecoverAfterOther(d, start, k, start + i + 1);
        RecoveredListed(r, start, i);
      } else {
        RecoveredUnlisted(r, start, b);
      }
    }
  }

  /** Stop recovery after any k of its writes: recovery run again ends in the same state. */
  lemma RecoverCrashIsIdempotent(d: Disk, start: nat, k: nat)
    requires Recoverable(d, start)
    requires k <= HeaderCount(d[start]) + 1
    ensures var r := RecoverAfter(d, start, k);
            Recoverable(r, start) && SameHome(Recovered(r, start), Recovered(d, start), start)
  {
    hide WordAt, PutWord, PutEntries, EncodeHeader;
    RecoverAfterHeader(d, start, k);
    forall b: nat | b < |d| && !InLog(start, b)
      ensures Recovered(RecoverAfter(d, start, k), start)[b] == Recovered(d, start)[b]
    {
      RecoverCrashBlock(d, start, k, b);
    }
  }

  /** A commit that runs to its end leaves the new state in the home blocks and an empty log. */
  lemma CommitEnds(d: Disk, mem: Disk, start: nat, lh: seq<Word>)
    requires LogFits(d, start) && Targets(lh, start, |d|) && OnlyLogged(d, mem, start, lh)
    ensures var r := CommitAfter(d, mem, start, lh, 2 * |lh| + 2);
            HeaderCount(r[start]) == 0 && SameHome(r, mem, start)
  {
    hide WordAt, EncodeHeader, CommitAfter;
    var k := 2 * |lh| + 2;
    CommitAfterHeader(d, mem, start, lh, k);
    forall b: nat | b < |d| && !InLog(start, b) ensures CommitAfter(d, mem, start, lh, k)[b] == mem[b] {
      if b in lh {
        var i :| 0 <= i < |lh| && lh[i] == b;
        CommitAfterHome(d, mem, start, lh, k, i);
      } else {
        CommitAfterOther(d, mem, start, lh, k, b);
      }
    }
  }

  /** Any number of recoveries, the i-th one cut off by a crash after at most cuts[i] writes. */
  function Interrupted(d: Disk, start: nat, cuts: seq<nat>): (r: Disk)
    requires Recoverable(d, start)
    decreases |cuts|
  {
    if cuts == [] then d
    else
      var k := if cuts[0] <= HeaderCount(d[start]) then cuts[0] else HeaderCount(d[start]) + 1;
      RecoverCrashIsIdempotent(d, start, k);
      Interrupted(RecoverAfter(d, start, k), start, cuts[1..])
  }

  lemma {:induction false} InterruptedRecoveryIsIdempotent(d: Disk, start: nat, cuts: seq<nat>)
    requires Recoverable(d, start)
    ensures var r := Interrupted(d, start, cuts);
            Recoverable(r, start) && SameHome(Recovered(r, start), Recovered(d, start), start)
    decreases |cuts|
  {
    hide WordAt, PutWord, PutEntries, EncodeHeader;
    if cuts != [] {
      var k := if cuts[0] <= HeaderCount(d[start]) then cuts[0] else HeaderCount(d[start]) + 1;
      RecoverCrashIsIdempotent(d, start, k);
      InterruptedRecoveryIsIdempotent(RecoverAfter(d, start, k), start, cuts[1..]);
    }
  }

  /** Crash atomicity of a transaction: stop the commit after any k writes, then stop any
      number of recoveries anywhere; the first recovery to finish leaves every home block
      in the old state, or every home block in the new one. It is the new state exactly when
      the header write (write number |lh| + 1) was done. */
  lemma TransactionIsAtomic(d: Disk, mem: Disk, start: nat, lh: seq<Word>, k: nat, cuts: seq<nat>)
    requires LogFits(d, start) && HeaderCount(d[start]) == 0
    requires Targets(lh, start, |d|) && OnlyLogged(d, mem, start, lh)
    requires k <= 2 * |lh| + 2
    ensures Recoverable(CommitAfter(d, mem, start, lh, k), start)
    ensures var s := Interrupted(CommitAfter(d, mem, start, lh, k), start, cuts);
            && Recoverable(s, start)
            && (k <= |lh| ==> SameHome(Recovered(s, start), d, start))
            && (k > |lh| ==> SameHome(Recovered(s, start), mem, start))
            && (!SameHome(d, mem, start) ==> (SameHome(Recovered(s, start), mem, start) <==> k > |lh|))
  {
    hide WordAt, PutWord, PutEntries, EncodeHeader;
    CommitCrashIsAtomic(d, mem, start, lh, k);
    InterruptedRecoveryIsIdempotent(CommitAfter(d, mem, start, lh, k), start, cuts);
  }
}
