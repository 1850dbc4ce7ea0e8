/** Any run of creations, reads, writes, truncations and removals of files, seen as a list of typed
    byte sequences, one for each inode. */
module FsRun {
  import opened Blocks
  import opened FsLayout
  import opened FsSpec
  import opened File
  import F = Fs
  import Mkfs

  /** `avail` bytes can be copied from or to the caller. */
  datatype Op =
    | Create(typ: Half)
    | Write(inum: nat, off: Word, data: seq<Byte>, avail: nat)
    | Read(inum: nat, off: Word, n: Word, avail: nat)
    | Truncate(inum: nat)
    | Remove(inum: nat)

  /** Refused is the panic of ilock over an inode that is not in use. */
  datatype Answer = Refused | Answer(r: int, out: seq<Byte>)

  /** Type 0 marks an inode that is not in use. */
  datatype FileState = FileState(typ: Half, bytes: seq<int>)

  type Files = seq<FileState>

  // ---- What the files are ----

  predicate InUse(files: Files, i: nat) {
    i < |files| && files[i].typ != 0
  }

  /** The files after an operation that was answered so. */
  function After(files: Files, op: Op, a: Answer): Files {
    match op
    case Create(typ) => if a.Answer? && 0 < a.r < |files| then files[a.r := FileState(typ, [])] else files
    case Write(i, off, data, _) =>
      if a.Answer? && InUse(files, i) && 0 <= a.r <= |data| && off <= |files[i].bytes|
      then files[i := files[i].(bytes := WriteAt(files[i].bytes, off, data[..a.r]))] else files
    case Read(_, _, _, _) => files
    case Truncate(i) => if InUse(files, i) then files[i := files[i].(bytes := [])] else files
    case Remove(i) => if InUse(files, i) then files[i := FileState(0, [])] else files
  }

  /** The answers that an operation may get. */
  predicate Allowed(files: Files, op: Op, a: Answer) {
    match op
    case Create(_) => a.Answer? && IsFirstFree(files, a.r)
    case Write(i, off, data, avail) =>
      if !InUse(files, i) then a.Refused?
      else a.Answer? &&
           if off > |files[i].bytes| || off + |data| >= 0x1_0000_0000 || off + |data| > MAXFILE * BSIZE then a.r == -1
           else 0 <= a.r <= F.Fs.Whole(off, |data|, avail)
    case Read(i, off, n, avail) =>
      if !InUse(files, i) then a.Refused?
      else a.Answer? && IsSlice(files[i].bytes, off, n, avail, a)
    case Truncate(i) => if InUse(files, i) then a.Answer? else a.Refused?
    case Remove(i) => if InUse(files, i) then a.Answer? else a.Refused?
  }

  /** A write that stops before the end of what can be copied. */
  predicate IsShort(op: Op, a: Answer) {
    op.Write? && a.Answer? && 0 <= a.r < F.Fs.Whole(op.off, |op.data|, op.avail)
  }

  ghost predicate NoRoom(d: Disk, sb: Super) {
    ValidSuper(sb, d) && F.Full(d, sb)
  }

  /** The first inode not in use, number 0 apart; 0 if there is none. */
  predicate IsFirstFree(files: Files, r: int) {
    && (r == 0 || (0 < r < |files| && files[r].typ == 0))
    && forall i :: 0 < i < (if r == 0 then |files| else r) ==> files[i].typ != 0
  }

  /** The requested bytes, clipped to the file; -1 if they cannot all be copied out. */
  predicate IsSlice(bytes: seq<int>, off: nat, n: nat, avail: nat, a: Answer)
    requires a.Answer?
  {
    if off > |bytes| || off + n >= 0x1_0000_0000 then a == Answer(0, [])
    else
      var len := if off + n > |bytes| then |bytes| - off else n;
      if avail < len then a.r == -1 else a.r == len && a.out == bytes[off..off + len]
  }

  function Replay(files: Files, ops: seq<Op>, answers: seq<Answer>): Files
    requires |ops| == |answers|
  {
    if ops == [] then files
    else
      var n := |ops| - 1;
      After(Replay(files, ops[..n], answers[..n]), ops[n], answers[n])
  }

  /** Each answer is one that the files of that moment allow. */
  predicate AllAllowed(files: Files, ops: seq<Op>, answers: seq<Answer>) {
    && |ops| == |answers|
    && forall k :: 0 <= k < |ops| ==> Allowed(Replay(files, ops[..k], answers[..k]), ops[k], answers[k])
  }

  // ---- What the disk holds ----

  /** Inode j has this type and these bytes; an inode not in use has no blocks. */
  ghost predicate FileOk(d: Disk, sb: Super, j: nat, owner: map<nat, Slot>, f: FileState) {
    && Holds(d, sb, j, owner, f.bytes)
    && var di := InodeAt(d, sb, j);
       di.typ == f.typ && (f.typ == 0 ==> di.size == 0 && forall p :: 0 <= p <= IND ==> di.addrs[p] == 0)
  }

  /** Every inode is the one in the list, and no block is shared, leaked or listed while free. */
  ghost predicate AllOk(d: Disk, sb: Super, owner: map<nat, Slot>, files: Files) {
    |files| == sb.ninodes && forall j: nat :: j < |files| ==> FileOk(d, sb, j, owner, files[j])
  }

  ghost predicate Ready(fs: F.Fs, files: Files)
    reads fs
  {
    fs.Tracked() && fs.Behind() && AllOk(fs.disk, fs.sb, fs.owner, files)
  }

  /** Work on one inode that leaves it as f. */
  lemma OthersOk(d: Disk, e: Disk, sb: Super, inum: nat, owner: map<nat, Slot>, owner': map<nat, Slot>, files: Files,
                 f: FileState)
    requires AllOk(d, sb, owner, files) && inum < |files| && Stable(d, e, sb, inum) && FileOk(e, sb, inum, owner', f)
    ensures AllOk(e, sb, owner', files[inum := f])
  {
    hide FsInv, Flat, InodeAt, Contents, HoleFree, ValidSuper;
    var files' := files[inum := f];
    forall j: nat | j < |files| ensures FileOk(e, sb, j, owner', files'[j]) {
      if j != inum {
        assert FileOk(d, sb, j, owner, files[j]);
        SwitchInode(e, sb, inum, j, owner');
        StableContents(d, e, sb, inum, j);
        assert SameFile(d, e, sb, j);
      }
    }
  }

  /** The inode at hand is up to date on the disk. */
  lemma HandOk(fs: F.Fs, ip: F.Inode)
    requires fs.Valid(ip) && HoleFree(fs.View(ip), ip.size) && ValidSuper(fs.sb, fs.disk) && ip.inum < fs.sb.ninodes
    requires InodeAt(fs.disk, fs.sb, ip.inum) == ip.Dino()
    requires ip.typ == 0 ==> ip.size == 0 && forall p :: 0 <= p <= IND ==> ip.addrs[p] == 0
    ensures FileOk(fs.disk, fs.sb, ip.inum, fs.owner, FileState(ip.typ, Contents(fs.disk, fs.View(ip), ip.size)))
  {
    hide FsInv, Flat, InodeAt, Contents, HoleFree, ValidSuper;
  }

  /** ilock: the inode as the disk has it. */
  method Load(fs: F.Fs, inum: nat, ghost files: Files) returns (ip: F.Inode)
    requires Ready(fs, files) && inum < |files|
    ensures fresh(ip) && fresh(ip.addrs) && ip.inum == inum && ip.addrs.Length == NDIRECT + 1
    ensures fs.Valid(ip) && HoleFree(fs.View(ip), ip.size)
    ensures FileState(ip.typ, Contents(fs.disk, fs.View(ip), ip.size)) == files[inum]
    ensures ip.typ == 0 ==> ip.size == 0 && forall p :: 0 <= p <= IND ==> ip.addrs[p] == 0
    ensures ValidSuper(fs.sb, fs.disk) && inum < fs.sb.ninodes && InodeAt(fs.disk, fs.sb, inum) == ip.Dino()
  {
    hide FsInv, Flat, Contents, HoleFree, DecodeInode;
    assert FileOk(fs.disk, fs.sb, inum, fs.owner, files[inum]);
    ip := new F.Inode(inum, InodeAt(fs.disk, fs.sb, inum));
  }

  method DoWrite(fs: F.Fs, op: Op, ghost files: Files) returns (a: Answer)
    requires Ready(fs, files) && op.Write? && InUse(files, op.inum)
    modifies fs
    ensures Ready(fs, After(files, op, a)) && Allowed(files, op, a)
    ensures IsShort(op, a) ==> NoRoom(fs.disk, fs.sb)
  {
    hide FsInv, Flat, Contents, HoleFree, ValidSuper, WriteAt, Stable, InodeAt, AllOk, FileOk, F.Full;
    ghost var d, owner := fs.disk, fs.owner;
    var ip := Load(fs, op.inum, files);
    StableRefl(d, fs.sb, op.inum);
    if |op.data| >= 0x1_0000_0000 {
      return Answer(-1, []);
    }
    var r := fs.Writei(ip, op.off, op.data, op.avail);
    InvMeansValid(fs.disk, fs.sb, op.inum, fs.View(ip), fs.owner);
    a := Answer(r, []);
    HandOk(fs, ip);
    OthersOk(d, fs.disk, fs.sb, op.inum, owner, fs.owner, files,
             FileState(ip.typ, Contents(fs.disk, fs.View(ip), ip.size)));
    assert files[op.inum := files[op.inum]] == files;
  }

  method DoRead(fs: F.Fs, op: Op, ghost files: Files) returns (a: Answer)
    requires Ready(fs, files) && op.Read? && InUse(files, op.inum)
    modifies fs
    ensures Ready(fs, files) && Allowed(files, op, a) && fs.disk == old(fs.disk)
  {
    hide FsInv, Flat, HoleFree, ValidSuper, Stable, InodeAt, AllOk;
    ghost var d, owner := fs.disk, fs.owner;
    var ip := Load(fs, op.inum, files);
    StableRefl(d, fs.sb, op.inum);
    var r, out := fs.Readi(ip, op.off, op.n, op.avail);
    a := Answer(r, out);
    OthersOk(d, fs.disk, fs.sb, op.inum, owner, fs.owner, files, files[op.inum]);
    assert files[op.inum := files[op.inum]] == files;
  }

  /** itrunc, and for Remove the rest of what iput does to an inode without links. */
  method DoTruncate(fs: F.Fs, op: Op, ghost files: Files) returns (a: Answer)
    requires Ready(fs, files) && (op.Truncate? || op.Remove?) && InUse(files, op.inum)
    modifies fs
    ensures Ready(fs, After(files, op, a)) && Allowed(files, op, a)
  {
    hide FsInv, Flat, ValidSuper, Stable, InodeAt, AllOk, FileOk;
    ghost var d, owner := fs.disk, fs.owner;
    var ip := Load(fs, op.inum, files);
    var ok := fs.Itrunc(ip);
    if op.Remove? {
      ghost var mid := fs.disk;
      ip.typ := 0;
      NoBlocks(fs, ip);
      fs.Iupdate(ip);
      StableTrans(d, mid, fs.disk, fs.sb, op.inum);
    }
    InvMeansValid(fs.disk, fs.sb, op.inum, fs.View(ip), fs.owner);
    a := Answer(0, []);
    HandOk(fs, ip);
    OthersOk(d, fs.disk, fs.sb, op.inum, owner, fs.owner, files, FileState(ip.typ, []));
  }

  lemma NoBlocks(fs: F.Fs, ip: F.Inode)
    requires ip.addrs.Length == NDIRECT + 1 && forall p :: 0 <= p < NPOS ==> fs.View(ip)[p] == 0
    ensures forall p :: 0 <= p <= IND ==> ip.addrs[p] == 0
  {
    forall p | 0 <= p <= IND ensures ip.addrs[p] == 0 {
      assert fs.View(ip)[p] == ip.addrs[p];
    }
  }

  /** ialloc. */
  method Ialloc(fs: F.Fs, typ: Half, ghost files: Files) returns (a: Answer)
    requires Ready(fs, files)
    modifies fs
    ensures Ready(fs, After(files, Create(typ), a)) && Allowed(files, Create(typ), a)
  {
    hide FsInv, Flat, ValidSuper, Stable, InodeAt, AllOk, FileOk;
    assert |files| == fs.sb.ninodes by { CountIs(fs, files); }
    var inum := 1;
    while inum < fs.sb.ninodes
      invariant 1 <= inum && Ready(fs, files) && fs.disk == old(fs.disk) && fs.owner == old(fs.owner)
      invariant forall i :: 0 < i < inum && i < |files| ==> files[i].typ != 0
    {
      var ip := Load(fs, inum, files);
      if ip.typ == 0 {
        Claim(fs, inum, typ, files);
        return Answer(inum, []);
      }
      inum := inum + 1;
    }
    return Answer(0, []);
  }

  /** The free inode is cleared, typed and written. */
  method Claim(fs: F.Fs, inum: nat, typ: Half, ghost files: Files)
    requires Ready(fs, files) && inum < |files| && files[inum].typ == 0
    modifies fs
    ensures Ready(fs, files[inum := FileState(typ, [])])
  {
    hide FsInv, ValidSuper, Stable, InodeAt, AllOk, FileOk;
    ghost var d, owner := fs.disk, fs.owner;
    var was := Load(fs, inum, files);
    var ip := new F.Inode(inum, Dinode(typ, 0, 0, 0, 0, seq(NDIRECT + 1, i => 0)));
    assert ip.addrs[..] == was.addrs[..] by {
      assert ip.addrs[..] == ip.Dino().addrs;
    }
    fs.Iupdate(ip);
    InvMeansValid(fs.disk, fs.sb, inum, fs.View(ip), fs.owner);
    HandOk(fs, ip);
    OthersOk(d, fs.disk, fs.sb, inum, owner, fs.owner, files, FileState(typ, []));
  }

  method Do(fs: F.Fs, op: Op, ghost files: Files) returns (a: Answer)
    requires Ready(fs, files)
    modifies fs
    ensures Ready(fs, After(files, op, a)) && Allowed(files, op, a)
    ensures IsShort(op, a) ==> NoRoom(fs.disk, fs.sb)
  {
    hide AllOk, Allowed, NoRoom, ValidSuper, After;
    if op.Create? {
      a := Ialloc(fs, op.typ, files);
      return;
    }
    var use := Lookup(fs, op.inum, files);
    if !use {
      a := Refused;
      NotInUse(files, op);
      return;
    }
    match op
    case Write(_, _, _, _) => a := DoWrite(fs, op, files);
    case Read(_, _, _, _) => a := DoRead(fs, op, files); ReadChangesNothing(files, op, a);
    case Truncate(_) => a := DoTruncate(fs, op, files);
    case Remove(_) => a := DoTruncate(fs, op, files);
  }

  /** Whether ilock finds a type. */
  method Lookup(fs: F.Fs, inum: nat, ghost files: Files) returns (use: bool)
    requires Ready(fs, files)
    ensures use <==> InUse(files, inum)
  {
    hide AllOk, ValidSuper, InodeAt, Flat, FsInv;
    assert |files| == fs.sb.ninodes by { CountIs(fs, files); }
    use := false;
    if inum < fs.sb.ninodes {
      var ip := Load(fs, inum, files);
      use := ip.typ != 0;
    }
  }

  lemma CountIs(fs: F.Fs, files: Files)
    requires Ready(fs, files)
    ensures |files| == fs.sb.ninodes
  {
  }

  lemma NotInUse(files: Files, op: Op)
    requires !op.Create? && !InUse(files, op.inum)
    ensures Allowed(files, op, Refused) && After(files, op, Refused) == files
  {
  }

  lemma ReadChangesNothing(files: Files, op: Op, a: Answer)
    requires op.Read?
    ensures After(files, op, a) == files
  {
  }

  /** Any run, up to a panic of ilock: the disk always holds the files that the answered operations
      make of the first ones, every answer is right for the files of that moment, and a write is
      short only if it left no block free. */
  method Run(fs: F.Fs, ops: seq<Op>, ghost files: Files) returns (answers: seq<Answer>, ghost disks: seq<Disk>)
    requires Ready(fs, files)
    modifies fs
    ensures |answers| <= |ops| && (|answers| < |ops| ==> answers != [] && answers[|answers| - 1].Refused?)
    ensures AllAllowed(files, ops[..|answers|], answers) && Ready(fs, Replay(files, ops[..|answers|], answers))
    ensures |disks| == |answers| && (disks != [] ==> disks[|disks| - 1] == fs.disk)
    ensures forall k :: 0 <= k < |answers| && IsShort(ops[k], answers[k]) ==> NoRoom(disks[k], fs.sb)
  {
    hide Ready, Allowed, After, IsShort, NoRoom;
    answers, disks := [], [];
    ghost var now := files;
    var k := 0;
    while k < |ops| && (k == 0 || !answers[k - 1].Refused?)
      invariant |answers| == k <= |ops| && Ready(fs, now) && now == Replay(files, ops[..k], answers)
      invariant AllAllowed(files, ops[..k], answers)
      invariant |disks| == k && (disks != [] ==> disks[|disks| - 1] == fs.disk)
      invariant forall j :: 0 <= j < k && IsShort(ops[j], answers[j]) ==> NoRoom(disks[j], fs.sb)
    {
      var a := Do(fs, ops[k], now);
      RunNext(files, ops, k, answers, a);
      now := After(now, ops[k], a);
      answers, disks := answers + [a], disks + [fs.disk];
      k := k + 1;
    }
  }

  /** On the image of mkfs no inode is in use. */
  lemma BlankOk(d: Disk, sb: Super, files: Files)
    requires Mkfs.Blank(d, sb) && |files| == sb.ninodes
    requires forall j :: 0 <= j < |files| ==> files[j] == FileState(0, [])
    ensures AllOk(d, sb, map[], files)
  {
    hide FsInv, DecodeInode;
    forall j: nat | j < |files| ensures FileOk(d, sb, j, map[], files[j]) {
      Mkfs.BlankInv(d, sb, j);
      Mkfs.ZeroInode(j % IPB);
    }
  }

  /** A run from the image of mkfs. */
  method RunFromImage(ops: seq<Op>) returns (answers: seq<Answer>, fs: F.Fs, ghost disks: seq<Disk>)
    ensures |answers| <= |ops|
    ensures var files := seq<FileState>(Mkfs.NINODES, i => FileState(0, []));
            && AllAllowed(files, ops[..|answers|], answers)
            && AllOk(fs.disk, fs.sb, fs.owner, Replay(files, ops[..|answers|], answers))
    ensures |disks| == |answers| && (disks != [] ==> disks[|disks| - 1] == fs.disk)
    ensures forall k :: 0 <= k < |answers| && IsShort(ops[k], answers[k]) ==> NoRoom(disks[k], fs.sb)
  {
    hide AllOk, AllAllowed, Replay, FsInv;
    ghost var files := seq<FileState>(Mkfs.NINODES, i => FileState(0, []));
    var ip;
    fs, ip := Mkfs.Image(0);
    BlankOk(fs.disk, fs.sb, files);
    answers, disks := Run(fs, ops, files);
  }

  lemma RunNext(files: Files, ops: seq<Op>, k: nat, answers: seq<Answer>, a: Answer)
    requires k < |ops| && AllAllowed(files, ops[..k], answers)
    requires Allowed(Replay(files, ops[..k], answers), ops[k], a)
    ensures AllAllowed(files, ops[..k + 1], answers + [a])
    ensures Replay(files, ops[..k + 1], answers + [a]) == After(Replay(files, ops[..k], answers), ops[k], a)
  {
    hide Allowed, After;
    var ops', answers' := ops[..k + 1], answers + [a];
    assert ops'[..k] == ops[..k] && answers'[..k] == answers;
    forall j | 0 <= j < k + 1 ensures Allowed(Replay(files, ops'[..j], answers'[..j]), ops'[j], answers'[j]) {
      assert ops'[..j] == ops[..k][..j] && answers'[..j] == answers[..j];
    }
  }
}
