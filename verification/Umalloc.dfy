/** The K&R allocator: a circular, address-ordered free list through the headers of the free
    blocks. Addresses and sizes count headers (16 bytes each). */
module Umalloc {
  import opened Common

  datatype Header = Header(ptr: nat, size: nat)

  /** Memory, as far as the allocator looks at it. */
  type Memory = map<nat, Header>

  // ---- The free list ----

  /** The i-th link closes the circle at the end. */
  predicate LinkOk(mem: Memory, list: seq<nat>, i: nat) {
    && i < |list| && list[i] in mem
    && mem[list[i]].ptr == if i + 1 < |list| then list[i + 1] else list[0]
  }

  /** `list` is the free list from `base` on: circular, and in address order. */
  ghost predicate ListOk(mem: Memory, base: nat, list: seq<nat>) {
    && 0 < |list| && list[0] == base
    && (forall i: nat :: i < |list| ==> LinkOk(mem, list, i))
    && (forall i, j :: 0 <= i < j < |list| ==> list[i] < list[j])
  }

  // ---- The blocks ----

  /** The blocks, address to size, exactly tile the memory obtained from sbrk. */
  ghost predicate Tiles(blocks: map<nat, nat>, arena: set<nat>) {
    && (forall a :: a in blocks ==> 0 < blocks[a])
    && (forall a, u: nat :: a in blocks && a <= u < a + blocks[a] ==> u in arena)
    && (forall u :: u in arena ==> Covered(blocks, u))
    && (forall a, b :: a in blocks && b in blocks && a < b ==> a + blocks[a] <= b)
  }

  ghost predicate Covered(blocks: map<nat, nat>, u: nat) {
    exists a :: a in blocks && a <= u < a + blocks[a]
  }

  /** Every block but the base is free, and in the list, or in use; headers hold the sizes. */
  ghost predicate Sorted(mem: Memory, base: nat, list: seq<nat>, blocks: map<nat, nat>, used: set<nat>) {
    && base in mem && mem[base].size == 0
    && (forall a :: a in blocks ==> base < a && a in mem && mem[a].size == blocks[a])
    && (forall a :: a in blocks <==> a in used || (a != base && a in list))
    && (forall a :: a in used ==> a !in list)
  }

  /** No two free blocks touch. */
  ghost predicate Gaps(list: seq<nat>, blocks: map<nat, nat>) {
    forall i, j :: 0 < i < j < |list| && list[i] in blocks ==> list[i] + blocks[list[i]] < list[j]
  }

  ghost predicate HeapOk(mem: Memory, base: nat, list: seq<nat>, blocks: map<nat, nat>, used: set<nat>,
                         arena: set<nat>) {
    && ListOk(mem, base, list) && Sorted(mem, base, list, blocks, used)
    && Gaps(list, blocks) && Tiles(blocks, arena)
  }

  // ---- Merging and splitting blocks ----

  /** Two touching blocks become one. */
  lemma MergeTiles(blocks: map<nat, nat>, arena: set<nat>, a: nat, b: nat)
    requires Tiles(blocks, arena) && a in blocks && b in blocks && a + blocks[a] == b
    ensures Tiles((blocks - {b})[a := blocks[a] + blocks[b]], arena)
  {
    var r := (blocks - {b})[a := blocks[a] + blocks[b]];
    forall u | u in arena ensures Covered(r, u) {
      assert Covered(blocks, u);
      var c :| c in blocks && c <= u < c + blocks[c];
      assert (if c == b then a else c) in r;
    }
    forall x, y | x in r && y in r && x < y ensures x + r[x] <= y {
      assert x in blocks && y in blocks;
      if x == a { assert b < y; }
    }
  }

  lemma SplitCovers(blocks: map<nat, nat>, a: nat, n: nat, u: nat)
    requires a in blocks && 0 < n < blocks[a] && a + n !in blocks && Covered(blocks, u)
    ensures Covered(blocks[a := n][a + n := blocks[a] - n], u)
  {
    var r := blocks[a := n][a + n := blocks[a] - n];
    var c :| c in blocks && c <= u < c + blocks[c];
    assert (if c == a && u >= a + n then a + n else c) in r;
  }

  /** A block becomes two touching ones. */
  lemma SplitTiles(blocks: map<nat, nat>, arena: set<nat>, a: nat, n: nat)
    requires Tiles(blocks, arena) && a in blocks && 0 < n < blocks[a]
    ensures a + n !in blocks
    ensures Tiles(blocks[a := n][a + n := blocks[a] - n], arena)
  {
    var b := a + n;
    var size := blocks[a];
    assert b in blocks ==> a + size <= b;
    var r := blocks[a := n][b := size - n];
    forall u | u in arena ensures Covered(r, u) { SplitCovers(blocks, a, n, u); }
    forall x, y | x in r && y in r && x < y ensures x + r[x] <= y { SplitApart(blocks, arena, a, n, x, y); }
    hide Covered;
  }

  lemma SplitApart(blocks: map<nat, nat>, arena: set<nat>, a: nat, n: nat, x: nat, y: nat)
    requires Tiles(blocks, arena) && a in blocks && 0 < n < blocks[a]
    requires var r := blocks[a := n][a + n := blocks[a] - n]; x in r && y in r && x < y
    ensures var r := blocks[a := n][a + n := blocks[a] - n]; x + r[x] <= y
  {
    hide Covered;
    assert x != a + n ==> x in blocks;
    assert y != a + n ==> y in blocks;
  }

  /** New memory is one more block. */
  lemma ExtendTiles(blocks: map<nat, nat>, arena: set<nat>, a: nat, n: nat, more: set<nat>)
    requires Tiles(blocks, arena) && 0 < n && (forall u :: u in more <==> a <= u < a + n) && arena !! more
    ensures a !in blocks
    ensures Tiles(blocks[a := n], arena + more)
  {
    assert a in more;
    assert a in blocks ==> a in arena;
    var r := blocks[a := n];
    forall u | u in arena + more ensures Covered(r, u) {
      if u in arena {
        assert Covered(blocks, u);
        var c :| c in blocks && c <= u < c + blocks[c];
        assert c in r && r[c] == blocks[c];
      } else {
        assert a in r;
      }
    }
    forall x, y | x in r && y in r && x < y ensures x + r[x] <= y {
      assert y == a && x + r[x] > a ==> a in arena;
      assert x == a && y < a + n ==> y in arena && y in more;
    }
  }

  // ---- The list under change ----

  function Without(list: seq<nat>, j: nat): seq<nat>
    requires j < |list|
  {
    list[..j] + list[j + 1..]
  }

  function With(list: seq<nat>, k: nat, b: nat): seq<nat>
    requires k < |list|
  {
    list[..k + 1] + [b] + list[k + 1..]
  }

  /** An entry of the list is unlinked: the one before it takes over its link. */
  lemma ListRemove(mem: Memory, mem': Memory, base: nat, list: seq<nat>, j: nat)
    requires ListOk(mem, base, list) && 0 < j < |list|
    requires forall i :: 0 <= i < |list| && i != j ==> list[i] in mem'
    requires forall i :: 0 <= i < |list| && i != j && i != j - 1 ==>
               list[i] in mem && mem'[list[i]].ptr == mem[list[i]].ptr
    requires list[j] in mem && mem'[list[j - 1]].ptr == mem[list[j]].ptr
    ensures ListOk(mem', base, Without(list, j))
  {
    var r := Without(list, j);
    forall i: nat | i < |r| ensures LinkOk(mem', r, i) {
      assert LinkOk(mem, list, j);
      assert LinkOk(mem, list, if i < j then i else i + 1);
    }
  }

  /** A block joins the list right after place k, in address order. */
  lemma ListInsert(mem: Memory, mem': Memory, base: nat, list: seq<nat>, k: nat, b: nat)
    requires ListOk(mem, base, list) && Between(list, b, k) && b in mem'
    requires forall i :: 0 <= i < |list| ==> list[i] in mem'
    requires forall i :: 0 <= i < |list| && i != k ==> list[i] in mem && mem'[list[i]].ptr == mem[list[i]].ptr
    requires list[k] in mem && mem'[b].ptr == mem[list[k]].ptr && mem'[list[k]].ptr == b
    ensures ListOk(mem', base, With(list, k, b))
  {
    var r := With(list, k, b);
    forall i: nat | i < |r| ensures LinkOk(mem', r, i) {
      assert LinkOk(mem, list, k);
      if i != k + 1 { assert LinkOk(mem, list, if i <= k then i else i - 1); }
    }
  }

  lemma ListSame(mem: Memory, mem': Memory, base: nat, list: seq<nat>)
    requires ListOk(mem, base, list)
    requires forall a :: a in list && a in mem ==> a in mem' && mem'[a].ptr == mem[a].ptr
    ensures ListOk(mem', base, list)
  {
    forall i: nat | i < |list| ensures LinkOk(mem', list, i) {
      assert LinkOk(mem, list, i);
    }
  }

  /** What the invariant says of the i-th entry. */
  lemma Entry(mem: Memory, base: nat, list: seq<nat>, blocks: map<nat, nat>, used: set<nat>, arena: set<nat>, i: nat)
    requires HeapOk(mem, base, list, blocks, used, arena) && i < |list|
    ensures list[i] in mem && list[i] in list && list[i] !in used
    ensures mem[list[i]].ptr == if i + 1 < |list| then list[i + 1] else base
    ensures list[0] == base <= list[i] && (i + 1 < |list| ==> list[i] < list[i + 1])
    ensures i == 0 ==> list[i] == base && mem[list[i]].size == 0 && list[i] !in blocks
    ensures i > 0 ==> list[i] != base && list[i] in blocks && mem[list[i]].size == blocks[list[i]]
  {
    hide Tiles, Gaps;
    assert LinkOk(mem, list, i);
    assert list[i] in list;
    assert 0 < i ==> list[0] < list[i];
  }

  lemma WithoutHas(list: seq<nat>, j: nat, x: nat)
    requires j < |list| && (forall i, k :: 0 <= i < k < |list| ==> list[i] < list[k])
    ensures x in Without(list, j) <==> x in list && x != list[j]
  {
    var r := Without(list, j);
    if x in list && x != list[j] {
      var i :| 0 <= i < |list| && list[i] == x;
      assert r[if i < j then i else i - 1] == x;
    }
    if x in r {
      var i :| 0 <= i < |r| && r[i] == x;
      assert list[if i < j then i else i + 1] == x;
    }
  }

  lemma WithHas(list: seq<nat>, k: nat, b: nat, x: nat)
    requires k < |list|
    ensures x in With(list, k, b) <==> x in list || x == b
  {
    var r := With(list, k, b);
    if x in list {
      var i :| 0 <= i < |list| && list[i] == x;
      assert r[if i <= k then i else i + 1] == x;
    }
    assert r[k + 1] == b;
  }

  lemma WithoutGaps(list: seq<nat>, blocks: map<nat, nat>, blocks': map<nat, nat>, j: nat)
    requires 0 < j < |list| && Gaps(list, blocks)
    requires forall i :: 0 < i < |list| && i != j && list[i] in blocks' ==>
               list[i] in blocks && blocks'[list[i]] == blocks[list[i]]
    ensures Gaps(Without(list, j), blocks')
  {
    var r := Without(list, j);
    assert forall i :: 0 <= i < j ==> r[i] == list[i];
    assert forall i :: j <= i < |r| ==> r[i] == list[i + 1];
  }

  lemma WithGaps(list: seq<nat>, blocks: map<nat, nat>, k: nat, b: nat)
    requires k < |list| && b in blocks && Gaps(list, blocks) && forall i :: 0 < i < |list| ==> list[i] in blocks
    requires k + 1 < |list| ==> b + blocks[b] < list[k + 1]
    requires 0 < k ==> list[k] + blocks[list[k]] < b
    ensures Gaps(With(list, k, b), blocks)
  {
    var r := With(list, k, b);
    forall i, j | 0 < i < j < |r| && r[i] in blocks ensures r[i] + blocks[r[i]] < r[j] {
      assert i <= k ==> r[i] == list[i];
      assert i > k + 1 ==> r[i] == list[i - 1];
      assert j > k + 1 ==> r[j] == list[j - 1];
      if i == k + 1 {
        assert k + 1 < j - 1 ==> list[k + 1] + blocks[list[k + 1]] < list[j - 1];
      } else if j == k + 1 {
        assert i < k ==> list[i] + blocks[list[i]] < list[k];
      }
    }
  }

  // ---- free ----

  /** Block b belongs between places k and k + 1 of the list. */
  predicate Between(list: seq<nat>, b: nat, k: nat) {
    k < |list| && list[k] < b && (k + 1 < |list| ==> b < list[k + 1])
  }

  /** A block in use takes in the free block that it touches. */
  lemma AbsorbNext(mem: Memory, mem': Memory, base: nat, list: seq<nat>, blocks: map<nat, nat>, used: set<nat>,
                   arena: set<nat>, b: nat, k: nat)
    requires HeapOk(mem, base, list, blocks, used, arena) && b in used && b in blocks && k + 1 < |list|
    requires b + blocks[b] == list[k + 1] && list[k + 1] in blocks && list[k + 1] in mem && list[k] in mem
    requires mem' == mem[b := Header(mem[list[k + 1]].ptr, blocks[b] + blocks[list[k + 1]])]
                        [list[k] := Header(mem[list[k + 1]].ptr, mem[list[k]].size)]
    ensures HeapOk(mem', base, Without(list, k + 1), (blocks - {list[k + 1]})[b := blocks[b] + blocks[list[k + 1]]],
                   used, arena)
  {
    hide Tiles, Gaps, Without;
    var c := list[k + 1];
    var list', blocks' := Without(list, k + 1), (blocks - {c})[b := blocks[b] + blocks[c]];
    MergeTiles(blocks, arena, b, c);
    forall i: nat | i < |list| ensures list[i] in mem && list[i] in list && list[i] != b {
      Entry(mem, base, list, blocks, used, arena, i);
    }
    ListRemove(mem, mem', base, list, k + 1);
    WithoutGaps(list, blocks, blocks', k + 1);
    forall x: nat ensures x in list' <==> x in list && x != c { WithoutHas(list, k + 1, x); }
    AbsorbNextSorted(mem, mem', base, list, list', blocks, used, b, list[k], c);
  }

  lemma AbsorbNextSorted(mem: Memory, mem': Memory, base: nat, list: seq<nat>, list': seq<nat>, blocks: map<nat, nat>,
                         used: set<nat>, b: nat, p: nat, c: nat)
    requires Sorted(mem, base, list, blocks, used) && b in used && b in blocks && c in blocks && c in list && c != b
             && p in list && p in mem
    requires forall x: nat :: x in list' <==> x in list && x != c
    requires mem' == mem[b := Header(mem[c].ptr, blocks[b] + blocks[c])][p := Header(mem[c].ptr, mem[p].size)]
    ensures Sorted(mem', base, list', (blocks - {c})[b := blocks[b] + blocks[c]], used)
  {
  }

  /** A free block takes in the block in use that it touches. */
  lemma AbsorbIntoPrev(mem: Memory, mem': Memory, base: nat, list: seq<nat>, blocks: map<nat, nat>, used: set<nat>,
                       arena: set<nat>, b: nat, k: nat)
    requires HeapOk(mem, base, list, blocks, used, arena) && b in used && b in blocks && 0 < k < |list|
    requires list[k] in blocks && list[k] + blocks[list[k]] == b && list[k] in mem
    requires k + 1 < |list| ==> b + blocks[b] < list[k + 1]
    requires mem'.Keys == mem.Keys && mem'[list[k]] == Header(mem[list[k]].ptr, blocks[list[k]] + blocks[b])
    requires forall x :: x in mem && x != b && x != list[k] ==> mem'[x] == mem[x]
    ensures HeapOk(mem', base, list, (blocks - {b})[list[k] := blocks[list[k]] + blocks[b]], used - {b}, arena)
  {
    hide Tiles;
    var p := list[k];
    MergeTiles(blocks, arena, p, b);
    forall i: nat | i < |list| ensures list[i] in mem && list[i] in list && list[i] != b {
      Entry(mem, base, list, blocks, used, arena, i);
    }
    ListSame(mem, mem', base, list);
    AbsorbIntoPrevGaps(list, blocks, b, k);
    hide ListOk, Gaps;
  }

  lemma AbsorbIntoPrevGaps(list: seq<nat>, blocks: map<nat, nat>, b: nat, k: nat)
    requires Gaps(list, blocks) && 0 < k < |list| && list[k] in blocks && b in blocks && list[k] + blocks[list[k]] == b
    requires k + 1 < |list| ==> b + blocks[b] < list[k + 1]
    requires forall i, j :: 0 <= i < j < |list| ==> list[i] < list[j]
    ensures Gaps(list, (blocks - {b})[list[k] := blocks[list[k]] + blocks[b]])
  {
    assert forall j :: k + 1 < j < |list| ==> list[k + 1] < list[j];
  }

  /** A block in use that touches no free one joins the free list. */
  lemma InsertFree(mem: Memory, mem': Memory, base: nat, list: seq<nat>, blocks: map<nat, nat>, used: set<nat>,
                   arena: set<nat>, b: nat, k: nat)
    requires HeapOk(mem, base, list, blocks, used, arena) && b in used && b in blocks && Between(list, b, k)
    requires list[k] in mem && (k + 1 < |list| ==> b + blocks[b] < list[k + 1])
    requires 0 < k && list[k] in blocks ==> list[k] + blocks[list[k]] < b
    requires mem'.Keys == mem.Keys && mem'[list[k]] == Header(b, mem[list[k]].size) && b in mem'
    requires mem'[b] == Header(mem[list[k]].ptr, blocks[b])
    requires forall x :: x in mem && x != b && x != list[k] ==> mem'[x] == mem[x]
    ensures HeapOk(mem', base, With(list, k, b), blocks, used - {b}, arena)
  {
    hide Tiles, Gaps, With;
    var list' := With(list, k, b);
    forall i: nat | i < |list|
      ensures list[i] in mem && list[i] in list && list[i] != b && (0 < i ==> list[i] in blocks)
    {
      Entry(mem, base, list, blocks, used, arena, i);
    }
    ListInsert(mem, mem', base, list, k, b);
    WithGaps(list, blocks, k, b);
    forall x: nat ensures x in list' <==> x in list || x == b { WithHas(list, k, b, x); }
    hide ListOk;
  }

  lemma InUse(mem: Memory, base: nat, list: seq<nat>, blocks: map<nat, nat>, used: set<nat>, arena: set<nat>, b: nat)
    requires HeapOk(mem, base, list, blocks, used, arena) && b in used
    ensures b !in list && 0 < |list| && list[0] == base < b && b in blocks
  {
  }

  /** A block in use ends at or before the next free one. */
  lemma NextStart(mem: Memory, base: nat, list: seq<nat>, blocks: map<nat, nat>, used: set<nat>, arena: set<nat>,
                  b: nat, k: nat)
    requires HeapOk(mem, base, list, blocks, used, arena) && b in used && Between(list, b, k)
    ensures b in blocks && b in mem && mem[b].size == blocks[b] && base < b && b !in list
    ensures forall a :: a in used ==> a in blocks && a !in list
    ensures k + 1 < |list| ==> b + blocks[b] <= list[k + 1]
  {
    if k + 1 < |list| { Entry(mem, base, list, blocks, used, arena, k + 1); }
  }

  /** A free block ends at or before the next block in use. */
  lemma PrevStart(mem: Memory, base: nat, list: seq<nat>, blocks: map<nat, nat>, used: set<nat>, arena: set<nat>,
                  b: nat, k: nat)
    requires HeapOk(mem, base, list, blocks, used, arena) && b in used && Between(list, b, k)
    ensures b in blocks && b in mem && mem[b].size == blocks[b] && base < b && b !in list
    ensures forall a :: a in used ==> a in blocks && a !in list
    ensures 0 < k ==> list[k] in blocks && list[k] + blocks[list[k]] <= b
  {
    Entry(mem, base, list, blocks, used, arena, k);
  }

  lemma NextGap(mem: Memory, base: nat, list: seq<nat>, blocks: map<nat, nat>, used: set<nat>, arena: set<nat>, k: nat)
    requires HeapOk(mem, base, list, blocks, used, arena) && k + 1 < |list| && list[k + 1] in blocks
    ensures k + 2 < |list| ==>
              list[k + 1] + blocks[list[k + 1]] < list[k + 2] && Without(list, k + 1)[k + 1] == list[k + 2]
  {
  }

  /** What a block in use holds in its link does not matter. */
  lemma UsedLink(mem: Memory, mem': Memory, base: nat, list: seq<nat>, blocks: map<nat, nat>, used: set<nat>,
                 arena: set<nat>, b: nat)
    requires HeapOk(mem, base, list, blocks, used, arena) && b in used && b in mem && b in mem'
    requires mem' == mem[b := Header(mem'[b].ptr, mem[b].size)]
    ensures HeapOk(mem', base, list, blocks, used, arena)
  {
    hide Tiles, Gaps;
    assert b !in list;
    ListSame(mem, mem', base, list);
  }

  lemma UsedBlocks(mem: Memory, base: nat, list: seq<nat>, blocks: map<nat, nat>, used: set<nat>, arena: set<nat>)
    requires HeapOk(mem, base, list, blocks, used, arena)
    ensures forall a :: a in used ==> a in blocks && a !in list
  {
  }

  lemma UsedSame(mem: Memory, base: nat, list: seq<nat>, blocks: map<nat, nat>, used: set<nat>, arena: set<nat>)
    requires HeapOk(mem, base, list, blocks, used, arena)
    ensures SameSizes(used, blocks, blocks)
  {
  }

  lemma SameEntry(mem: Memory, base: nat, list: seq<nat>, blocks: map<nat, nat>, used: set<nat>, arena: set<nat>,
                  i: nat, j: nat)
    requires HeapOk(mem, base, list, blocks, used, arena) && i < |list| && j < |list| && list[i] == list[j]
    ensures i == j
  {
  }

  lemma BaseIsBelow(mem: Memory, base: nat, list: seq<nat>, blocks: map<nat, nat>, used: set<nat>, arena: set<nat>,
                    a: nat)
    requires HeapOk(mem, base, list, blocks, used, arena) && a in list
    ensures base <= a
  {
    assert list[0] == base;
  }

  /** The memories differ in one link only. */
  predicate Relinked(mem: Memory, m: Memory, p: nat, ptr: nat) {
    && m.Keys == mem.Keys && p in mem && m[p] == Header(ptr, mem[p].size)
    && forall x :: x in mem && x != p ==> m[x] == mem[x]
  }

  /** The block at a holds the n units from b on. */
  predicate Holds(a: nat, blocks: map<nat, nat>, b: nat, n: nat) {
    a in blocks && a <= b && b + n <= a + blocks[a]
  }

  function Range(a: nat, n: nat): (r: set<nat>)
    ensures forall u :: u in r <==> a <= u < a + n
  {
    if n == 0 then {} else Range(a, n - 1) + {a + n - 1}
  }

  /** The entry after i, round the circle. */
  function Next(i: nat, n: nat): nat
    requires i < n
  {
    if i + 1 < n then i + 1 else 0
  }

  /** Going round from f, entry j comes before entry i. */
  predicate Passed(j: nat, f: nat, i: nat) {
    if f < i then f < j < i else j > f || j < i
  }

  /** No entry passed between f and i has n units. */
  ghost predicate PassedUnfit(list: seq<nat>, blocks: map<nat, nat>, n: nat, f: nat, i: nat) {
    forall j: nat :: 0 < j < |list| && list[j] in blocks && Passed(j, f, i) ==> blocks[list[j]] < n
  }

  /** The blocks in use keep their sizes. */
  ghost predicate SameSizes(used: set<nat>, blocks: map<nat, nat>, before: map<nat, nat>) {
    forall a :: a in used ==> a in blocks && a in before && blocks[a] == before[a]
  }

  lemma Fits(list: seq<nat>, blocks: map<nat, nat>, n: nat, i: nat)
    requires 0 < i < |list| && list[i] in blocks && n <= blocks[list[i]]
    ensures !Unfit(list, blocks, n)
  {
  }

  lemma SameSizesJoin(used: set<nat>, blocks: map<nat, nat>, middle: map<nat, nat>, before: map<nat, nat>)
    requires SameSizes(used, blocks, middle) && SameSizes(used, middle, before)
    ensures SameSizes(used, blocks, before)
  {
  }

  /** No free block has n units. */
  ghost predicate Unfit(list: seq<nat>, blocks: map<nat, nat>, n: nat) {
    forall i: nat :: 0 < i < |list| && list[i] in blocks ==> blocks[list[i]] < n
  }

  lemma PassNext(list: seq<nat>, blocks: map<nat, nat>, n: nat, f: nat, i: nat)
    requires f < |list| && i < |list| && (0 < i && list[i] in blocks ==> blocks[list[i]] < n)
    requires i != f && PassedUnfit(list, blocks, n, f, i)
    ensures PassedUnfit(list, blocks, n, f, Next(i, |list|))
  {
  }

  lemma PassedNone(list: seq<nat>, blocks: map<nat, nat>, n: nat, f: nat)
    requires f < |list|
    ensures PassedUnfit(list, blocks, n, f, Next(f, |list|))
  {
  }

  lemma PassedAll(list: seq<nat>, blocks: map<nat, nat>, n: nat, f: nat)
    requires f < |list| && PassedUnfit(list, blocks, n, f, f) && (0 < f && list[f] in blocks ==> blocks[list[f]] < n)
    ensures Unfit(list, blocks, n)
  {
    forall j: nat | 0 < j < |list| && list[j] in blocks ensures blocks[list[j]] < n {
      assert j == f || Passed(j, f, f);
    }
  }

  /** The last entry below b. */
  ghost function PlaceOf(list: seq<nat>, b: nat): (k: nat)
    requires 0 < |list| && list[0] < b
    ensures k < |list| && list[k] < b && (k + 1 < |list| ==> b <= list[k + 1])
  {
    if list[|list| - 1] < b then |list| - 1 else PlaceOf(list[..|list| - 1], b)
  }

  // ---- malloc ----

  /** A free block of the right size leaves the list. */
  lemma TakeWhole(mem: Memory, mem': Memory, base: nat, list: seq<nat>, blocks: map<nat, nat>, used: set<nat>,
                  arena: set<nat>, i: nat)
    requires HeapOk(mem, base, list, blocks, used, arena) && 0 < i < |list| && list[i] in mem && list[i - 1] in mem
    requires mem' == mem[list[i - 1] := Header(mem[list[i]].ptr, mem[list[i - 1]].size)]
    ensures HeapOk(mem', base, Without(list, i), blocks, used + {list[i]}, arena)
  {
    hide Tiles, Gaps, Without;
    forall j: nat | j < |list| ensures list[j] in mem && list[j] in list && (0 < j ==> list[j] in blocks) {
      Entry(mem, base, list, blocks, used, arena, j);
    }
    ListRemove(mem, mem', base, list, i);
    WithoutGaps(list, blocks, blocks, i);
    forall x: nat ensures x in Without(list, i) <==> x in list && x != list[i] { WithoutHas(list, i, x); }
    assert list[0] < list[i];
  }

  function SetSize(mem: Memory, a: nat, n: nat): Memory {
    mem[a := Header(if a in mem then mem[a].ptr else 0, n)]
  }

  /** The last n units of a free block are cut off. */
  lemma CutTail(mem: Memory, base: nat, list: seq<nat>, blocks: map<nat, nat>, used: set<nat>, arena: set<nat>,
                i: nat, n: nat)
    requires HeapOk(mem, base, list, blocks, used, arena) && 0 < i < |list| && list[i] in blocks
             && 0 < n < blocks[list[i]]
    ensures var a, m := list[i], blocks[list[i]] - n;
            && a + m !in blocks && a + m !in used
            && HeapOk(SetSize(SetSize(mem, a, m), a + m, n), base, list, blocks[a := m][a + m := n], used + {a + m},
                      arena)
  {
    var a, m := list[i], blocks[list[i]] - n;
    var mem' := SetSize(SetSize(mem, a, m), a + m, n);
    SplitTiles(blocks, arena, a, m);
    hide Tiles;
    Entry(mem, base, list, blocks, used, arena, i);
    assert a + m !in list;
    ListSame(mem, mem', base, list);
    CutGaps(list, blocks, a, m, n);
    hide ListOk, Gaps;
    CutSorted(mem, base, list, blocks, used, a, m, n);
  }

  lemma CutSorted(mem: Memory, base: nat, list: seq<nat>, blocks: map<nat, nat>, used: set<nat>, a: nat, m: nat, n: nat)
    requires Sorted(mem, base, list, blocks, used) && a in blocks && a in list && a + m !in blocks && a + m !in list
             && 0 < m
    ensures Sorted(SetSize(SetSize(mem, a, m), a + m, n), base, list, blocks[a := m][a + m := n], used + {a + m})
  {
  }

  lemma CutGaps(list: seq<nat>, blocks: map<nat, nat>, a: nat, m: nat, n: nat)
    requires Gaps(list, blocks) && a in blocks && m < blocks[a] && forall j :: 0 <= j < |list| ==> list[j] != a + m
    ensures Gaps(list, blocks[a := m][a + m := n])
  {
  }

  /** New memory enters as a block in use. */
  lemma NewMemory(mem: Memory, base: nat, list: seq<nat>, blocks: map<nat, nat>, used: set<nat>, arena: set<nat>,
                  a: nat, n: nat, more: set<nat>)
    requires HeapOk(mem, base, list, blocks, used, arena) && base < a && 0 < n
    requires (forall u :: u in more <==> a <= u < a + n) && arena !! more
    ensures a !in blocks && a !in used
    ensures HeapOk(SetSize(mem, a, n), base, list, blocks[a := n], used + {a}, arena + more)
  {
    ExtendTiles(blocks, arena, a, n, more);
    hide Tiles;
    assert a !in list;
    ListSame(mem, SetSize(mem, a, n), base, list);
    forall j: nat | j < |list| ensures list[j] in list { Entry(mem, base, list, blocks, used, arena, j); }
    hide ListOk;
  }

  /** When nothing is in use and the memory is one stretch, the list is one block. */
  lemma AllFreeIsOneBlock(mem: Memory, base: nat, list: seq<nat>, blocks: map<nat, nat>, arena: set<nat>, lo: nat,
                          hi: nat)
    requires HeapOk(mem, base, list, blocks, {}, arena) && lo < hi && forall u :: u in arena <==> lo <= u < hi
    ensures list == [base, lo] && lo in mem && mem[lo].size == hi - lo
  {
    hide Gaps;
    assert |list| > 2 ==> list[1] < list[2];
    hide ListOk;
    assert Covered(blocks, lo);
    assert lo in blocks by {
      var a :| a in blocks && a <= lo < a + blocks[a];
      assert a in arena;
    }
    StretchIsOneBlock(mem, base, list, blocks, arena, lo, hi);
    forall i: nat | 0 < i < |list| ensures list[i] == lo { Entry(mem, base, list, blocks, {}, arena, i); }
    OnlyEntry(base, list, lo);
  }

  lemma OnlyEntry(base: nat, list: seq<nat>, lo: nat)
    requires 0 < |list| && list[0] == base && (|list| > 2 ==> list[1] < list[2])
    requires lo in list && lo != base && forall i: nat :: 0 < i < |list| ==> list[i] == lo
    ensures list == [base, lo]
  {
  }

  /** A block that stops short of the end would touch the next free one. */
  lemma StretchIsOneBlock(mem: Memory, base: nat, list: seq<nat>, blocks: map<nat, nat>, arena: set<nat>, lo: nat,
                          hi: nat)
    requires HeapOk(mem, base, list, blocks, {}, arena) && lo < hi && lo in blocks
    requires forall u :: u in arena <==> lo <= u < hi
    ensures blocks == map[lo := hi - lo]
  {
    var next := lo + blocks[lo];
    assert next - 1 in arena;
    if next < hi {
      assert Covered(blocks, next);
      var b :| b in blocks && b <= next < b + blocks[b];
      assert b in arena && b in list && lo in list;
      assert lo < b;
      Touching(mem, base, list, blocks, lo, b);
      assert false;
    }
    forall a | a in blocks ensures a == lo {
      assert a in arena;
    }
  }

  /** Two free blocks, in address order, have a gap between them. */
  lemma Touching(mem: Memory, base: nat, list: seq<nat>, blocks: map<nat, nat>, a: nat, b: nat)
    requires ListOk(mem, base, list) && Gaps(list, blocks)
    requires a in blocks && a in list && b in list && base < a < b
    ensures a + blocks[a] < b
  {
    var i :| 0 <= i < |list| && list[i] == a;
    var j :| 0 <= j < |list| && list[j] == b;
    if j < i { assert false; }
  }

  // ---- Sizes and 32-bit arguments ----

  const MINUNITS := 4096

  /** The header and the rounded-up payload, in headers. */
  function Units(nbytes: nat): nat {
    (nbytes + 15) / 16 + 1
  }

  function Growth(nu: nat): nat {
    if nu < MINUNITS then MINUNITS else nu
  }

  lemma GrowthCovers(brk: nat, nbytes: nat)
    ensures Range(brk, 4096) <= Range(brk, Growth(Units(nbytes)))
    ensures Growth(Units(nbytes)) == 4096 || nbytes <= 16 * (Growth(Units(nbytes)) - 1) < nbytes + 16
  {
  }

  /** What sbrk is asked for: a byte count cut to a signed 32-bit int. */
  function SbrkArg(nu: nat): int {
    var low := (nu * 16) % 0x1_0000_0000;
    if low < 0x8000_0000 then low else low - 0x1_0000_0000
  }

  /** The kernel is asked for the memory that the new header claims exactly when the request is
      at most 2^31 - 32 bytes. */
  lemma RequestIsExact(nbytes: nat)
    requires nbytes < 0x1_0000_0000
    ensures SbrkArg(Growth(Units(nbytes))) == 16 * Growth(Units(nbytes)) <==> nbytes <= 0x7FFF_FFE0
  {
    var nu := Growth(Units(nbytes));
    if nbytes <= 0x7FFF_FFE0 {
      assert nu * 16 < 0x8000_0000;
    } else {
      assert nu * 16 >= 0x8000_0000;
    }
  }

  /** The largest request asks the kernel for 16 bytes. */
  lemma LargestRequest()
    ensures Units(0xFFFF_FFFF) == 0x1000_0001 && SbrkArg(Growth(Units(0xFFFF_FFFF))) == 16
  {
  }

  // ---- The allocator ----

  class Heap {
    const base: nat
    var mem: Memory
    var freep: nat

    ghost var list: seq<nat>
    ghost var blocks: map<nat, nat>
    ghost var used: set<nat>
    ghost var arena: set<nat>

    ghost predicate Valid()
      reads this
    {
      && 0 < base
      && (freep == 0 ==> list == [] && blocks == map[] && used == {} && arena == {})
      && (freep != 0 ==> freep in list && HeapOk(mem, base, list, blocks, used, arena))
    }

    constructor (base: nat)
      requires 0 < base
      ensures Valid() && used == {} && arena == {} && this.base == base
    {
      this.base := base;
      mem, freep, list, blocks, used, arena := map[], 0, [], map[], {}, {};
    }

    /** The place of a block in use: the loop of `free`. */
    method FindPlace(bp: nat) returns (p: nat, ghost k: nat)
      requires Valid() && bp in used
      ensures k < |list| && p == list[k] && Between(list, bp, k)
    {
      hide Tiles, Gaps, ListOk, Sorted;
      InUse(mem, base, list, blocks, used, arena, bp);
      ghost var at := PlaceOf(list, bp);
      p := freep;
      k :| 0 <= k < |list| && list[k] == p;
      Entry(mem, base, list, blocks, used, arena, k);
      while !(bp > p && bp < mem[p].ptr)
        invariant k < |list| && p == list[k] && p in mem && base <= p && (k + 1 < |list| ==> p < list[k + 1])
        invariant mem[p].ptr == if k + 1 < |list| then list[k + 1] else base
        decreases if k <= at then at - k else at + |list| - k
      {
        if p >= mem[p].ptr && (bp > p || bp < mem[p].ptr) {
          break;
        }
        p := mem[p].ptr;
        k := if k + 1 < |list| then k + 1 else 0;
        Entry(mem, base, list, blocks, used, arena, k);
      }
    }

    /** The first half of `free`: the block takes in the free one behind it. What the list would
        be with the block before it relinked is `m`. */
    method JoinNext(bp: nat, p: nat, ghost k: nat) returns (ghost m: Memory)
      requires Valid() && bp in used && Between(list, bp, k) && p == list[k]
      modifies `mem, `list, `blocks
      ensures HeapOk(m, base, list, blocks, used, arena)
      ensures Between(list, bp, k) && p == list[k] && bp in mem && p in mem && Relinked(mem, m, p, mem[bp].ptr)
      ensures bp in blocks && bp in old(blocks) && old(blocks)[bp] <= blocks[bp]
              && (k + 1 < |list| ==> bp + blocks[bp] < list[k + 1])
      ensures forall a :: a in used && a != bp ==> a in blocks && a in old(blocks) && blocks[a] == old(blocks)[a]
    {
      hide Tiles, Gaps, ListOk, Sorted, HeapOk;
      Entry(mem, base, list, blocks, used, arena, k);
      if k + 1 < |list| { Entry(mem, base, list, blocks, used, arena, k + 1); }
      NextStart(mem, base, list, blocks, used, arena, bp, k);
      var next := mem[p].ptr;
      if bp + mem[bp].size == next {
        m := mem[bp := Header(mem[next].ptr, blocks[bp] + blocks[next])][p := Header(mem[next].ptr, mem[p].size)];
        AbsorbNext(mem, m, base, list, blocks, used, arena, bp, k);
        NextGap(mem, base, list, blocks, used, arena, k);
        mem := mem[bp := Header(mem[next].ptr, mem[bp].size + mem[next].size)];
        blocks := (blocks - {next})[bp := blocks[bp] + blocks[next]];
        list := Without(list, k + 1);
      } else {
        m := mem[bp := Header(next, mem[bp].size)];
        UsedLink(mem, m, base, list, blocks, used, arena, bp);
        mem := mem[bp := Header(next, mem[bp].size)];
      }
    }

    /** The second half: the free block before takes it in, or links to it. */
    method JoinPrev(bp: nat, p: nat, ghost k: nat, ghost m: Memory)
      requires HeapOk(m, base, list, blocks, used, arena) && bp in used
      requires Between(list, bp, k) && p == list[k] && bp in mem && p in mem && Relinked(mem, m, p, mem[bp].ptr)
      requires bp in blocks && (k + 1 < |list| ==> bp + blocks[bp] < list[k + 1])
      modifies `mem, `list, `blocks, `used
      ensures HeapOk(mem, base, list, blocks, used, arena) && p in list
      ensures used == old(used) - {bp}
      ensures exists i :: 0 < i < |list| && Holds(list[i], blocks, bp, old(blocks)[bp])
      ensures SameSizes(used, blocks, old(blocks))
    {
      hide Tiles, Gaps, ListOk, Sorted, HeapOk;
      Entry(m, base, list, blocks, used, arena, k);
      PrevStart(m, base, list, blocks, used, arena, bp, k);
      if p + mem[p].size == bp {
        mem := mem[p := Header(mem[bp].ptr, mem[p].size + mem[bp].size)];
        AbsorbIntoPrev(m, mem, base, list, blocks, used, arena, bp, k);
        blocks := (blocks - {bp})[p := blocks[p] + blocks[bp]];
        assert Holds(list[k], blocks, bp, old(blocks)[bp]);
      } else {
        mem := mem[p := Header(bp, mem[p].size)];
        InsertFree(m, mem, base, list, blocks, used, arena, bp, k);
        list := With(list, k, bp);
        assert list[k] == p && Holds(list[k + 1], blocks, bp, old(blocks)[bp]);
      }
      used := used - {bp};
    }

    /** A block in use goes back; all of it ends up inside one free block. */
    method Free(bp: nat)
      requires Valid() && bp in used
      modifies this
      ensures Valid() && freep != 0
      ensures used == old(used) - {bp} && arena == old(arena)
      ensures bp in old(blocks) && exists i :: 0 < i < |list| && Holds(list[i], blocks, bp, old(blocks)[bp])
      ensures SameSizes(used, blocks, old(blocks))
    {
      hide Tiles, Gaps, ListOk, Sorted;
      ghost var k;
      var p;
      p, k := FindPlace(bp);
      ghost var m := JoinNext(bp, p, k);
      ghost var size := blocks[bp];
      ghost var was := old(blocks)[bp];
      JoinPrev(bp, p, k, m);
      ghost var i :| 0 < i < |list| && Holds(list[i], blocks, bp, size);
      assert Holds(list[i], blocks, bp, was);
      BaseIsBelow(mem, base, list, blocks, used, arena, p);
      freep := p;
    }

    /** Memory for nu units, or for 4096, from sbrk; it joins the free list. */
    method Morecore(nu: nat, brk: Option<nat>) returns (p: nat)
      requires Valid() && freep != 0
      requires brk.Some? ==> base < brk.value && forall u :: brk.value <= u < brk.value + Growth(nu) ==> u !in arena
      modifies this
      ensures Valid() && freep != 0 && used == old(used)
      ensures SameSizes(used, blocks, old(blocks))
      ensures brk.None? ==>
                p == 0 && arena == old(arena) && list == old(list) && mem == old(mem) && freep == old(freep)
                    && blocks == old(blocks)
      ensures brk.Some? ==> p == freep && arena == old(arena) + Range(brk.value, Growth(nu))
      ensures brk.Some? ==> !Unfit(list, blocks, nu)
    {
      hide Tiles, Gaps, ListOk, Sorted;
      if brk.None? {
        UsedBlocks(mem, base, list, blocks, used, arena);
        return 0;
      }
      var n, hp := Growth(nu), brk.value;
      NewMemory(mem, base, list, blocks, used, arena, hp, n, Range(hp, n));
      UsedBlocks(mem, base, list, blocks, used, arena);
      mem := SetSize(mem, hp, n);
      blocks, used, arena := blocks[hp := n], used + {hp}, arena + Range(hp, n);
      Free(hp);
      ghost var i: nat :| 0 < i < |list| && Holds(list[i], blocks, hp, n);
      Fits(list, blocks, nu, i);
      p := freep;
    }

    /** The end of the search: the block found is taken whole, or its tail is. */
    method Take(prevp: nat, p: nat, ghost i: nat, nunits: nat) returns (r: nat)
      requires Valid() && freep != 0 && 0 < i < |list| && p == list[i] && prevp == list[i - 1] && p in mem
               && prevp in mem
      requires 0 < nunits <= mem[p].size
      modifies this
      ensures Valid() && r !in old(used) && used == old(used) + {r} && r in blocks && blocks[r] == nunits
              && arena == old(arena)
      ensures r + nunits == p + old(mem[p].size)
      ensures SameSizes(old(used), blocks, old(blocks))
    {
      hide Tiles, Gaps, ListOk, Sorted;
      Entry(mem, base, list, blocks, used, arena, i);
      Entry(mem, base, list, blocks, used, arena, i - 1);
      UsedBlocks(mem, base, list, blocks, used, arena);
      r := p;
      if mem[p].size == nunits {
        ghost var m := mem[prevp := Header(mem[p].ptr, mem[prevp].size)];
        TakeWhole(mem, m, base, list, blocks, used, arena, i);
        mem := mem[prevp := Header(mem[p].ptr, mem[prevp].size)];
        list, used := Without(list, i), used + {r};
        assert list[i - 1] == prevp;
      } else {
        CutTail(mem, base, list, blocks, used, arena, i, nunits);
        r := p + (mem[p].size - nunits);
        blocks, used := blocks[p := blocks[p] - nunits][r := nunits], used + {r};
        mem := SetSize(SetSize(mem, p, mem[p].size - nunits), r, nunits);
      }
      freep := prevp;
    }

    /** The first call points the base at itself. */
    method Start()
      requires Valid()
      modifies this
      ensures Valid() && freep != 0 && used == old(used) && arena == old(arena) && blocks == old(blocks)
      ensures forall n: nat :: Unfit(list, blocks, n) <==> old(Unfit(list, blocks, n))
    {
      if freep == 0 {
        freep := base;
        mem := mem[base := Header(base, 0)];
        list := [base];
        assert LinkOk(mem, list, 0);
      }
    }

    /** Once round the list from the entry after `freep`, for the first block of n units. */
    method Search(n: nat) returns (found: bool, prevp: nat, p: nat, ghost i: nat)
      requires Valid() && freep != 0 && 0 < n
      ensures found <==> !Unfit(list, blocks, n)
      ensures found ==> exists f: nat :: f < |list| && list[f] == freep && PassedUnfit(list, blocks, n, f, i)
      ensures found ==>
                0 < i < |list| && p == list[i] && prevp == list[i - 1] && p in mem && prevp in mem && n <= mem[p].size
    {
      hide HeapOk, PassedUnfit, Unfit;
      prevp := freep;
      ghost var f: nat :| f < |list| && list[f] == freep;
      Entry(mem, base, list, blocks, used, arena, f);
      PassedNone(list, blocks, n, f);
      p, i := mem[prevp].ptr, Next(f, |list|);
      while true
        invariant i < |list| && p == list[i] && prevp == list[if i == 0 then |list| - 1 else i - 1]
        invariant PassedUnfit(list, blocks, n, f, i)
        decreases if i <= f then f - i else |list| - i + f
      {
        Entry(mem, base, list, blocks, used, arena, i);
        Entry(mem, base, list, blocks, used, arena, if i == 0 then |list| - 1 else i - 1);
        if mem[p].size >= n {
          Fits(list, blocks, n, i);
          return true, prevp, p, i;
        }
        if p == freep {
          SameEntry(mem, base, list, blocks, used, arena, i, f);
          PassedAll(list, blocks, n, f);
          return false, prevp, p, i;
        }
        PassNext(list, blocks, n, f, i);
        prevp, p, i := p, mem[p].ptr, Next(i, |list|);
      }
    }

    /** A block of its own for every request that the free list or sbrk can serve. The source's
        loop starts over after `morecore`; here that is a second call of `Search`, and it finds
        a block. `grew` tells if sbrk gave memory: memory that was not in the heap, and as much
        as morecore takes it for. */
    method Malloc(nbytes: nat, brk: Option<nat>) returns (r: Option<nat>, grew: bool)
      requires Valid() && nbytes < 0x1_0000_0000
      requires brk.Some? && Unfit(list, blocks, Units(nbytes)) ==>
                 && SbrkArg(Growth(Units(nbytes))) == Growth(Units(nbytes)) * 16 && base < brk.value
                 && forall u :: brk.value <= u < brk.value + Growth(Units(nbytes)) ==> u !in arena
      modifies this
      ensures Valid() && freep != 0
      ensures r.None? <==> brk.None? && old(Unfit(list, blocks, Units(nbytes)))
      ensures r.None? ==> used == old(used)
      ensures r.Some? ==>
                r.value !in old(used) && used == old(used) + {r.value} && r.value in blocks
                    && nbytes <= 16 * (blocks[r.value] - 1) < nbytes + 16
      ensures grew <==> brk.Some? && old(Unfit(list, blocks, Units(nbytes)))
      ensures arena == if grew then old(arena) + Range(brk.value, Growth(Units(nbytes))) else old(arena)
      ensures grew ==> Range(brk.value, 4096) <= arena
      ensures SameSizes(old(used), blocks, old(blocks))
    {
      hide HeapOk, Growth, SameSizes, Unfit, Range;
      var nunits := Units(nbytes);
      Start();
      UsedSame(mem, base, list, blocks, used, arena);
      var found, prevp, p;
      ghost var i;
      found, prevp, p, i := Search(nunits);
      grew := false;
      if !found {
        p := Morecore(nunits, brk);
        if p == 0 {
          return None, false;
        }
        GrowthCovers(brk.value, nbytes);
        grew := true;
        found, prevp, p, i := Search(nunits);
      }
      ghost var sizes := blocks;
      p := Take(prevp, p, i, nunits);
      SameSizesJoin(old(used), blocks, sizes, old(blocks));
      r := Some(p);
    }

    /** Any run of calls, with sbrk granting memory from `start` on or refusing it. What is in use
        is what was handed out and not freed, each block still of the size it was asked for; a
        request is refused only if sbrk is; when nothing is in use, the heap is one free block. */
    method Run(calls: seq<Call>, start: nat) returns (answers: seq<Option<nat>>, live: seq<Live>, top: nat)
      requires Valid() && used == {} && arena == {} && base < start
      modifies this
      ensures Valid() && start <= top && (forall u :: u in arena <==> start <= u < top)
      ensures |answers| == |calls| && live == LiveAfter(calls, answers) && Lives(live, used, blocks)
      ensures forall k :: 0 <= k < |calls| ==> Answered(calls[k], answers[k])
      ensures live == [] && start < top ==> list == [base, start] && start in mem && mem[start].size == top - start
    {
      hide HeapOk, SameSizes, Unfit, Units, Lives, Answered, LiveAfter, LiveStep;
      answers, live, top := [], [], start;
      NoLives(calls, used, blocks);
      for k := 0 to |calls|
        invariant Valid() && start <= top && (forall u :: u in arena <==> start <= u < top)
        invariant |answers| == k && live == LiveAfter(calls[..k], answers) && Lives(live, used, blocks)
        invariant forall j :: 0 <= j < k ==> Answered(calls[j], answers[j])
      {
        var a;
        a, top := Serve(calls[k], start, top, live);
        LiveNext(calls, answers, k, a);
        live := LiveStep(live, calls[k], a);
        answers := answers + [a];
      }
      assert calls[..|calls|] == calls;
      if live == [] && start < top {
        NothingLives(used, blocks);
        assert start in arena && freep != 0;
        AllFreeIsOneBlock(mem, base, list, blocks, arena, start, top);
      }
    }

    /** One call of a run. */
    method Serve(call: Call, start: nat, top: nat, live: seq<Live>) returns (a: Option<nat>, end: nat)
      requires Valid() && base < start <= top && (forall u :: u in arena <==> start <= u < top)
      requires Lives(live, used, blocks)
      modifies this
      ensures Valid() && start <= end && (forall u :: u in arena <==> start <= u < end)
      ensures Answered(call, a) && Lives(LiveStep(live, call, a), used, blocks)
    {
      hide HeapOk, SameSizes, Unfit, Units, Lives;
      ghost var was, before := used, blocks;
      a, end := None, top;
      match call
      case Allocate(nbytes, grant) =>
        if nbytes < 0x1_0000_0000 {
          var exact := SbrkArg(Growth(Units(nbytes))) == Growth(Units(nbytes)) * 16;
          RequestIsExact(nbytes);
          var grew;
          a, grew := Malloc(nbytes, if grant && exact then Some(top) else None);
          LivesMore(live, was, used, before, blocks, a, nbytes);
          end := if grew then top + Growth(Units(nbytes)) else top;
        }
      case Release(i) =>
        if i < |live| {
          LiveIsUsed(live, used, blocks, i);
          Free(live[i].addr);
          LivesLess(live, was, used, before, blocks, i);
        }
    }
  }

  datatype Call = Allocate(nbytes: nat, grant: bool) | Release(i: nat)

  /** A block handed out for nbytes and not freed. */
  datatype Live = Live(addr: nat, nbytes: nat)

  function LiveStep(live: seq<Live>, call: Call, a: Option<nat>): seq<Live> {
    match call
    case Allocate(nbytes, _) => if a.Some? then live + [Live(a.value, nbytes)] else live
    case Release(i) => if i < |live| then live[..i] + live[i + 1..] else live
  }

  /** What is handed out and not freed after calls that were answered so. */
  function LiveAfter(calls: seq<Call>, answers: seq<Option<nat>>): seq<Live>
    requires |calls| == |answers|
  {
    if calls == [] then []
    else
      var n := |calls| - 1;
      LiveStep(LiveAfter(calls[..n], answers[..n]), calls[n], answers[n])
  }

  /** A request that sbrk would grant is not refused. */
  predicate Answered(call: Call, a: Option<nat>) {
    call.Allocate? && call.grant && call.nbytes <= 0x7FFF_FFE0 ==> a.Some?
  }

  /** Whole units for the request, the header apart. */
  predicate Suits(nbytes: nat, units: nat) {
    nbytes <= 16 * (units - 1) < nbytes + 16
  }

  /** The blocks in use are these, each once and of the right size. */
  ghost predicate Lives(live: seq<Live>, used: set<nat>, blocks: map<nat, nat>) {
    && (forall i :: 0 <= i < |live| ==>
          live[i].addr in used && live[i].addr in blocks && Suits(live[i].nbytes, blocks[live[i].addr]))
    && (forall a :: a in used ==> exists i :: 0 <= i < |live| && live[i].addr == a)
    && (forall i, j :: 0 <= i < j < |live| ==> live[i].addr != live[j].addr)
  }

  lemma NoLives(calls: seq<Call>, used: set<nat>, blocks: map<nat, nat>)
    requires used == {}
    ensures Lives([], used, blocks) && LiveAfter(calls[..0], []) == []
  {
  }

  lemma NothingLives(used: set<nat>, blocks: map<nat, nat>)
    requires Lives([], used, blocks)
    ensures used == {}
  {
  }

  lemma LiveIsUsed(live: seq<Live>, used: set<nat>, blocks: map<nat, nat>, i: nat)
    requires Lives(live, used, blocks) && i < |live|
    ensures live[i].addr in used
  {
  }

  lemma LiveNext(calls: seq<Call>, answers: seq<Option<nat>>, k: nat, a: Option<nat>)
    requires k < |calls| && |answers| == k
    ensures LiveAfter(calls[..k + 1], answers + [a]) == LiveStep(LiveAfter(calls[..k], answers), calls[k], a)
  {
    assert calls[..k + 1][..k] == calls[..k] && (answers + [a])[..k] == answers;
  }

  lemma LivesMore(live: seq<Live>, was: set<nat>, used: set<nat>, before: map<nat, nat>, blocks: map<nat, nat>,
                  a: Option<nat>, nbytes: nat)
    requires Lives(live, was, before) && SameSizes(was, blocks, before)
    requires if a.Some? then a.value !in was && used == was + {a.value} && a.value in blocks
                               && Suits(nbytes, blocks[a.value])
             else used == was
    ensures Lives(if a.Some? then live + [Live(a.value, nbytes)] else live, used, blocks)
  {
    if a.Some? {
      var more := live + [Live(a.value, nbytes)];
      forall x | x in used ensures exists i :: 0 <= i < |more| && more[i].addr == x {
        if x == a.value {
          assert more[|live|].addr == x;
        } else {
          var i :| 0 <= i < |live| && live[i].addr == x;
          assert more[i].addr == x;
        }
      }
    }
  }

  lemma LivesLess(live: seq<Live>, was: set<nat>, used: set<nat>, before: map<nat, nat>, blocks: map<nat, nat>, i: nat)
    requires Lives(live, was, before) && i < |live| && used == was - {live[i].addr} && SameSizes(used, blocks, before)
    ensures Lives(live[..i] + live[i + 1..], used, blocks)
  {
    var rest := live[..i] + live[i + 1..];
    assert forall k :: 0 <= k < |rest| ==> rest[k] == live[if k < i then k else k + 1];
    forall x | x in used ensures exists k :: 0 <= k < |rest| && rest[k].addr == x {
      var k :| 0 <= k < |live| && live[k].addr == x;
      assert rest[if k < i then k else k - 1].addr == x;
    }
  }
}
