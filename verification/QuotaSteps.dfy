/**
 The elementary changes that the operations on a quota file are made of, and the proof that each of
 them takes the invariant to the invariant.
 */
module QuotaSteps {
  import opened Basics
  import opened QuotaBlocks
  import opened QuotaShape

  lemma ChildParent(k: Key, j: nat)
    requires j < WORDS
    ensures Parent(Child(k, j)) == k && Child(k, j).prefix % 256 == j
  {
  }

  lemma ParentChild(k: Key)
    requires k.depth > 0
    ensures k.prefix % 256 < WORDS && Child(Parent(k), k.prefix % 256) == k
  {
  }

  // ---- lists of blocks

  lemma ChainFrame(blocks: seq<Block>, blocks': seq<Block>, list: seq<nat>, head: nat)
    requires Chain(blocks, list, head) && |blocks| <= |blocks'|
    requires forall b :: b in list ==> Next(blocks'[b]) == Next(blocks[b])
    ensures Chain(blocks', list, head)
  {
  }

  lemma ChainPop(blocks: seq<Block>, list: seq<nat>, head: nat)
    requires Chain(blocks, list, head) && list != []
    ensures Chain(blocks, list[1..], Next(blocks[head]))
    ensures head !in list[1..] && forall b :: b in list <==> b == head || b in list[1..]
  {
  }

  lemma ChainPush(blocks: seq<Block>, list: seq<nat>, head: nat, b: nat, block: Block)
    requires Chain(blocks, list, head) && b !in list && 0 < b < |blocks| && Next(block) == head
    ensures Chain(blocks[b := block], [b] + list, b)
  {
  }

  /** The blocks after taking `blk`, whose contents are now `buf`, out of a doubly linked list. */
  function Unlink(blocks: seq<Block>, blk: nat, buf: Block): seq<Block>
    requires blk < |blocks| && Next(buf) < |blocks| && Prev(buf) < |blocks|
  {
    var b1 := if Next(buf) != 0 then blocks[Next(buf) := WithPrev(blocks[Next(buf)], Prev(buf))] else blocks;
    var b2 := if Prev(buf) != 0 then b1[Prev(buf) := WithNext(b1[Prev(buf)], Next(buf))] else b1;
    b2[blk := WithPrev(WithNext(buf, 0), 0)]
  }

  /** The head of the list after taking out a block with contents `buf`. */
  function UnlinkHead(head: nat, buf: Block): nat {
    if Prev(buf) != 0 then head else Next(buf)
  }

  /** What unlinking makes of a block `b` other than the one taken out. */
  function Relinked(b: nat, block: Block, next: nat, prev: nat): Block {
    var c := if b == next && next != 0 then WithPrev(block, prev) else block;
    if b == prev && prev != 0 then WithNext(c, next) else c
  }

  lemma UnlinkAt(blocks: seq<Block>, blk: nat, buf: Block, b: nat)
    requires blk < |blocks| && Next(buf) < |blocks| && Prev(buf) < |blocks| && b < |blocks|
    ensures |Unlink(blocks, blk, buf)| == |blocks|
    ensures Unlink(blocks, blk, buf)[b] ==
            if b == blk then WithPrev(WithNext(buf, 0), 0) else Relinked(b, blocks[b], Next(buf), Prev(buf))
  {
  }

  /** The neighbours in the list of its member `k`. */
  lemma Neighbours(blocks: seq<Block>, list: seq<nat>, head: nat, k: nat, buf: Block)
    requires DoubleChain(blocks, list, head) && k < |list|
    requires Next(buf) == Next(blocks[list[k]]) && Prev(buf) == Prev(blocks[list[k]])
    ensures Next(buf) == Elem(list, k + 1) && Prev(buf) == Elem(list, k - 1)
    ensures Next(buf) < |blocks| && Prev(buf) < |blocks|
  {
  }

  lemma UnlinkFrame(blocks: seq<Block>, list: seq<nat>, head: nat, k: nat, buf: Block)
    requires DoubleChain(blocks, list, head) && k < |list|
    requires Next(buf) == Next(blocks[list[k]]) && Prev(buf) == Prev(blocks[list[k]])
    ensures Next(buf) < |blocks| && Prev(buf) < |blocks|
    ensures var blocks' := Unlink(blocks, list[k], buf);
            && |blocks'| == |blocks|
            && blocks'[list[k]] == WithPrev(WithNext(buf, 0), 0)
            && (forall b :: 0 <= b < |blocks| && b != list[k] ==> SameBody(blocks'[b], blocks[b]))
            && (forall b :: 0 <= b < |blocks| && b !in list ==> blocks'[b] == blocks[b])
  {
  }

  lemma UnlinkLinks(blocks: seq<Block>, list: seq<nat>, head: nat, k: nat, buf: Block, i: nat)
    requires DoubleChain(blocks, list, head) && k < |list| && i < |list| && i != k
    requires Next(buf) == Next(blocks[list[k]]) && Prev(buf) == Prev(blocks[list[k]])
    requires Next(buf) < |blocks| && Prev(buf) < |blocks|
    ensures |Unlink(blocks, list[k], buf)| == |blocks|
    ensures var b := Unlink(blocks, list[k], buf)[list[i]];
            && Next(b) == Elem(list, if i + 1 == k then k + 1 else i + 1)
            && Prev(b) == Elem(list, if i - 1 == k then k - 1 else i - 1)
  {
    hide Unlink;
    Neighbours(blocks, list, head, k, buf);
    UnlinkAt(blocks, list[k], buf, list[i]);
    assert Next(blocks[list[i]]) == Elem(list, i + 1) && Prev(blocks[list[i]]) == Elem(list, i - 1);
  }

  lemma RemoveAtMembers(list: seq<nat>, k: nat)
    requires NoDup(list) && k < |list|
    ensures NoDup(RemoveAt(list, k))
    ensures forall b :: b in RemoveAt(list, k) <==> b in list && b != list[k]
  {
  }

  lemma RemoveAtElem(list: seq<nat>, k: nat, i: int)
    requires k < |list|
    ensures |RemoveAt(list, k)| == |list| - 1
    ensures Elem(RemoveAt(list, k), i) == if i < k then Elem(list, i) else Elem(list, i + 1)
  {
  }

  lemma UnlinkChain(blocks: seq<Block>, list: seq<nat>, head: nat, k: nat, buf: Block)
    requires DoubleChain(blocks, list, head) && k < |list|
    requires Next(buf) == Next(blocks[list[k]]) && Prev(buf) == Prev(blocks[list[k]])
    requires Next(buf) < |blocks| && Prev(buf) < |blocks|
    ensures DoubleChain(Unlink(blocks, list[k], buf), RemoveAt(list, k), UnlinkHead(head, buf))
  {
    hide Unlink, RemoveAt;
    var blocks', list' := Unlink(blocks, list[k], buf), RemoveAt(list, k);
    UnlinkAt(blocks, list[k], buf, 0);
    Neighbours(blocks, list, head, k, buf);
    RemoveAtMembers(list, k);
    RemoveAtElem(list, k, 0);
    forall i | 0 <= i < |list'|
      ensures 0 < list'[i] < |blocks'|
      ensures Next(blocks'[list'[i]]) == Elem(list', i + 1) && Prev(blocks'[list'[i]]) == Elem(list', i - 1)
    {
      var o := if i < k then i else i + 1;
      RemoveAtElem(list, k, i - 1);
      RemoveAtElem(list, k, i);
      RemoveAtElem(list, k, i + 1);
      UnlinkLinks(blocks, list, head, k, buf, o);
    }
  }

  /** The blocks after putting `blk`, with contents `buf`, at the head of a doubly linked list. */
  function LinkFirst(blocks: seq<Block>, blk: nat, buf: Block, head: nat): seq<Block>
    requires blk < |blocks| && head < |blocks|
  {
    var b1 := blocks[blk := WithPrev(WithNext(buf, head), 0)];
    if head != 0 then b1[head := WithPrev(b1[head], blk)] else b1
  }

  lemma LinkFirstFrame(blocks: seq<Block>, list: seq<nat>, head: nat, blk: nat, buf: Block)
    requires DoubleChain(blocks, list, head) && blk !in list && 0 < blk < |blocks|
    ensures head < |blocks|
    ensures var blocks' := LinkFirst(blocks, blk, buf, head);
            && |blocks'| == |blocks|
            && blocks'[blk] == WithPrev(WithNext(buf, head), 0)
            && (forall b :: 0 <= b < |blocks| && b != blk ==> SameBody(blocks'[b], blocks[b]))
            && (forall b :: 0 <= b < |blocks| && b !in list && b != blk ==> blocks'[b] == blocks[b])
  {
  }

  /** The links of member `i`, of which only those of the old head have changed. */
  lemma LinkFirstLinks(blocks: seq<Block>, list: seq<nat>, head: nat, blk: nat, buf: Block, i: nat)
    requires DoubleChain(blocks, list, head) && blk !in list && 0 < blk < |blocks| && head < |blocks| && i < |list|
    ensures |LinkFirst(blocks, blk, buf, head)| == |blocks| && 0 < list[i] < |blocks|
    ensures var b := LinkFirst(blocks, blk, buf, head)[list[i]];
            Next(b) == Elem(list, i + 1) && Prev(b) == if i == 0 then blk else Elem(list, i - 1)
  {
    assert Next(blocks[list[i]]) == Elem(list, i + 1) && Prev(blocks[list[i]]) == Elem(list, i - 1);
    if i == 0 {
      assert list[i] == head;
    } else {
      assert list[0] != list[i];
    }
  }

  lemma LinkFirstChain(blocks: seq<Block>, list: seq<nat>, head: nat, blk: nat, buf: Block)
    requires DoubleChain(blocks, list, head) && blk !in list && 0 < blk < |blocks| && head < |blocks|
    ensures DoubleChain(LinkFirst(blocks, blk, buf, head), [blk] + list, blk)
  {
    LinkFirstFrame(blocks, list, head, blk, buf);
    hide LinkFirst;
    var blocks', list' := LinkFirst(blocks, blk, buf, head), [blk] + list;
    forall i | 0 <= i < |list'|
      ensures 0 < list'[i] < |blocks'|
      ensures Next(blocks'[list'[i]]) == Elem(list', i + 1) && Prev(blocks'[list'[i]]) == Elem(list', i - 1)
    {
      if i > 0 {
        assert list'[i] == list[i - 1] && Elem(list', i + 1) == Elem(list, i);
        LinkFirstLinks(blocks, list, head, blk, buf, i - 1);
      }
    }
  }

  // ---- changes that leave the tree alone

  /** The blocks of the tree nodes are as before. */
  ghost predicate NodesSame(blocks: seq<Block>, blocks': seq<Block>, s: Shape)
    requires RoleInv(s, |blocks|)
  {
    |blocks| <= |blocks'| && forall k :: k in s.node ==> blocks'[s.node[k]] == blocks[s.node[k]]
  }

  /** References stay right if what they lead to stays, but for the place of the hole. */
  lemma DownFrame(blocks: seq<Block>, blocks': seq<Block>, s: Shape, s': Shape, hole: Hole, hole': Hole)
    requires RoleInv(s, |blocks|) && RoleInv(s', |blocks'|) && s'.node == s.node && NodesSame(blocks, blocks', s)
    requires DownInv(blocks, s, hole) && (hole.Dangling? ==> hole' == hole)
    requires forall k :: Has(s, k) && hole' != Dangling(k) ==> Has(s', k) && Target(s', k) == Target(s, k)
    ensures DownInv(blocks', s', hole')
  {
    forall k: Key, j: nat | k in s'.node && j < WORDS && hole' != Dangling(Child(k, j)) ensures RefOk(blocks', s', k, j) {
      assert RefOk(blocks, s, k, j);
    }
  }

  /** Places stay linked if no place is new, but for that of the hole. */
  lemma UpFrame(blocks: seq<Block>, blocks': seq<Block>, s: Shape, s': Shape, hole: Hole, hole': Hole)
    requires RoleInv(s, |blocks|) && s'.node == s.node && NodesSame(blocks, blocks', s) && UpInv(blocks, s, hole)
    requires forall k :: Has(s', k) && hole' != Unlinked(k) ==> Has(s, k) && Target(s', k) == Target(s, k) && hole != Unlinked(k)
    ensures UpInv(blocks', s', hole')
  {
    forall k | Has(s', k) && k.depth > 0 && hole' != Unlinked(k) ensures Linked(blocks', s', k) {
      assert Linked(blocks, s, k);
    }
  }

  lemma TreeFrame(blocks: seq<Block>, blocks': seq<Block>, s: Shape, s': Shape, hole: Hole)
    requires TreeInv(blocks, s, hole) && NodesSame(blocks, blocks', s)
    requires s'.node == s.node && s'.dir == s.dir && s'.owner == s.owner && RoleInv(s', |blocks'|)
    requires forall id :: id in s.dir ==> s.dir[id].blk < |s'.role| && s'.role[s.dir[id].blk] == Data
    ensures TreeInv(blocks', s', hole)
  {
    hide RoleInv, UpInv, DownInv;
    DownFrame(blocks, blocks', s, s', hole, hole);
    UpFrame(blocks, blocks', s, s', hole, hole);
  }

  /** The records and counts of the data blocks are as before. */
  lemma DataFrame(blocks: seq<Block>, blocks': seq<Block>, s: Shape, s': Shape, reserved: set<nat>)
    requires |s.role| == |blocks| <= |blocks'| == |s'.role|
    requires DataInv(blocks, s, reserved) && s'.owner == s.owner
    requires forall b :: 0 <= b < |blocks'| && s'.role[b] == Data ==>
               b < |blocks| && s.role[b] == Data && SameBody(blocks'[b], blocks[b])
    ensures DataInv(blocks', s', reserved)
  {
    forall b | 0 <= b < |blocks'| && s'.role[b] == Data ensures DataBlock(s'.owner, b, blocks'[b], reserved) {
      assert DataBlock(s.owner, b, blocks[b], reserved);
      BodyKeepsRecords(blocks'[b], blocks[b]);
    }
  }

  /** The list of data blocks with room is as before. */
  lemma PartialFrame(d: Disk, d': Disk, s: Shape, s': Shape)
    requires |s.role| == |d.blocks| <= |d'.blocks| == |s'.role|
    requires PartialInv(d, s) && s'.owner == s.owner && s'.partial == s.partial && d'.freeEntry == d.freeEntry
    requires forall b :: 0 <= b < |d'.blocks| ==> (s'.role[b] == Data <==> b < |d.blocks| && s.role[b] == Data)
    requires forall b :: b in s.partial ==> Next(d'.blocks[b]) == Next(d.blocks[b]) && Prev(d'.blocks[b]) == Prev(d.blocks[b])
    ensures PartialInv(d', s')
  {
  }

  // ---- get_free_dqblk

  /** The block that is taken: the first free one, or a new one at the end of the file. */
  function Taken(d: Disk): nat { if d.freeBlk != 0 then d.freeBlk else |d.blocks| }

  function TakeDisk(d: Disk): Disk
    requires d.freeBlk < |d.blocks|
  {
    if d.freeBlk != 0 then d.(freeBlk := Next(d.blocks[d.freeBlk])) else d.(blocks := d.blocks + [EMPTY_BLOCK])
  }

  function TakeShape(s: Shape): Shape
    requires s.free != [] ==> s.free[0] < |s.role|
  {
    if s.free != [] then s.(role := s.role[s.free[0] := Limbo], free := s.free[1..])
    else s.(role := s.role + [Limbo])
  }

  lemma TakeFree(d: Disk, s: Shape)
    requires |s.role| == |d.blocks| > 0 && FreeInv(d, s)
    ensures d.freeBlk < |d.blocks| && (s.free != [] ==> s.free[0] == d.freeBlk && s.role[d.freeBlk] == Free && d.freeBlk > 0)
    ensures s.free == [] ==> d.freeBlk == 0
    ensures |TakeShape(s).role| == |TakeDisk(d).blocks| && FreeInv(TakeDisk(d), TakeShape(s))
  {
    if s.free != [] {
      ChainPop(d.blocks, s.free, d.freeBlk);
      assert s.free[0] in s.free;
    } else {
      ChainFrame(d.blocks, TakeDisk(d).blocks, s.free, d.freeBlk);
    }
  }

  lemma TakeRole(d: Disk, s: Shape)
    requires RoleInv(s, |d.blocks|) && FreeInv(d, s)
    ensures d.freeBlk < |d.blocks| && (s.free != [] ==> s.free[0] < |s.role| && s.role[s.free[0]] == Free)
    ensures RoleInv(TakeShape(s), |TakeDisk(d).blocks|) && FreeInv(TakeDisk(d), TakeShape(s))
    ensures 0 < Taken(d) < |TakeShape(s).role| && TakeShape(s).role[Taken(d)] == Limbo
  {
    hide FreeInv;
    TakeFree(d, s);
  }

  /** The block taken held neither a node nor data. */
  lemma TakeSame(d: Disk, s: Shape)
    requires RoleInv(s, |d.blocks|) && DirInv(s) && FreeInv(d, s) && d.freeBlk < |d.blocks|
    requires s.free != [] ==> s.free[0] < |s.role| && s.role[s.free[0]] == Free
    ensures NodesSame(d.blocks, TakeDisk(d).blocks, s)
    ensures forall id :: id in s.dir ==> s.dir[id].blk < |s.role| && TakeShape(s).role[s.dir[id].blk] == Data
  {
    hide Chain;
  }

  lemma TakeInv(d: Disk, s: Shape, reserved: set<nat>, hole: Hole)
    requires Inv(d, s, reserved, hole)
    ensures d.freeBlk < |d.blocks| && (s.free != [] ==> s.free[0] < |s.role|)
    ensures Inv(TakeDisk(d), TakeShape(s), reserved, hole)
    ensures 0 < Taken(d) < |TakeShape(s).role| && TakeShape(s).role[Taken(d)] == Limbo
  {
    hide RoleInv, DirInv, HoleInv, UpInv, DownInv, NonEmptyInv, DataInv, FreeInv, PartialInv, NodesSame;
    RoleLength(s, |d.blocks|);
    TakeRole(d, s);
    TakeSame(d, s);
    var d', s' := TakeDisk(d), TakeShape(s);
    RoleLength(s', |d'.blocks|);
    TreeFrame(d.blocks, d'.blocks, s, s', hole);
    assert forall b :: 0 <= b < |d'.blocks| ==> (s'.role[b] == Data <==> b < |d.blocks| && s.role[b] == Data);
    DataFrame(d.blocks, d'.blocks, s, s', reserved);
    PartialMembers(d, s);
    PartialFrame(d, d', s, s');
  }

  lemma PartialMembers(d: Disk, s: Shape)
    requires |s.role| == |d.blocks| && PartialInv(d, s)
    ensures forall b :: b in s.partial ==> 0 < b < |d.blocks| && s.role[b] == Data
  {
  }

  // ---- put_free_dqblk

  /** The contents `buf` with the header of a free block. */
  function FreeHeader(buf: Block, next: nat): Block { WithEntries(WithPrev(WithNext(buf, next), 0), 0) }

  function GiveDisk(d: Disk, blk: nat, buf: Block): Disk
    requires blk < |d.blocks|
  {
    d.(blocks := d.blocks[blk := FreeHeader(buf, d.freeBlk)], freeBlk := blk)
  }

  function GiveShape(s: Shape, blk: nat): Shape
    requires blk < |s.role|
  {
    s.(role := s.role[blk := Free], free := [blk] + s.free)
  }

  lemma GiveRole(s: Shape, n: nat, blk: nat)
    requires RoleInv(s, n) && DirInv(s) && 0 < blk < n && s.role[blk] == Limbo
    ensures RoleInv(GiveShape(s, blk), n)
    ensures (forall k :: k in s.node ==> 0 < s.node[k] < n && s.node[k] != blk)
    ensures forall id :: id in s.dir ==> 0 < s.dir[id].blk < n && GiveShape(s, blk).role[s.dir[id].blk] == Data
  {
  }

  lemma GiveFree(d: Disk, s: Shape, blk: nat, buf: Block)
    requires |s.role| == |d.blocks| && FreeInv(d, s) && 0 < blk < |d.blocks| && s.role[blk] == Limbo
    ensures FreeInv(GiveDisk(d, blk, buf), GiveShape(s, blk))
  {
    hide Chain;
    ChainPush(d.blocks, s.free, d.freeBlk, blk, FreeHeader(buf, d.freeBlk));
  }

  lemma GiveInv(d: Disk, s: Shape, reserved: set<nat>, hole: Hole, blk: nat, buf: Block)
    requires Inv(d, s, reserved, hole) && 0 < blk < |d.blocks| && s.role[blk] == Limbo
    ensures Inv(GiveDisk(d, blk, buf), GiveShape(s, blk), reserved, hole)
  {
    hide RoleInv, DirInv, HoleInv, UpInv, DownInv, NonEmptyInv, DataInv, FreeInv, PartialInv, FreeHeader;
    RoleLength(s, |d.blocks|);
    var d', s' := GiveDisk(d, blk, buf), GiveShape(s, blk);
    GiveRole(s, |d.blocks|, blk);
    TreeFrame(d.blocks, d'.blocks, s, s', hole);
    DataFrame(d.blocks, d'.blocks, s, s', reserved);
    PartialMembers(d, s);
    PartialFrame(d, d', s, s');
    GiveFree(d, s, blk, buf);
  }

  lemma RoleLength(s: Shape, n: nat)
    requires RoleInv(s, n)
    ensures |s.role| == n > ROOT
  {
  }

  // ---- links in the tree

  /** Only blocks that are neither data nor free differ. */
  ghost predicate RestSame(d: Disk, d': Disk, s: Shape, s': Shape) {
    && |s.role| == |d.blocks| == |d'.blocks| == |s'.role|
    && d'.freeBlk == d.freeBlk && d'.freeEntry == d.freeEntry
    && s'.owner == s.owner && s'.free == s.free && s'.partial == s.partial
    && (forall b :: 0 <= b < |s.role| ==> (s'.role[b] == Data <==> s.role[b] == Data))
    && (forall b :: 0 <= b < |s.role| ==> (s'.role[b] == Free <==> s.role[b] == Free))
    && (forall b :: 0 <= b < |s.role| && (s.role[b] == Data || s.role[b] == Free) ==> d'.blocks[b] == d.blocks[b])
  }

  lemma RestFrame(d: Disk, d': Disk, s: Shape, s': Shape, reserved: set<nat>)
    requires RestSame(d, d', s, s')
    requires DataInv(d.blocks, s, reserved) && FreeInv(d, s) && PartialInv(d, s)
    ensures DataInv(d'.blocks, s', reserved) && FreeInv(d', s') && PartialInv(d', s')
  {
  }

  lemma LinkUp(blocks: seq<Block>, s: Shape, k: Key, j: nat)
    requires RoleInv(s, |blocks|) && j < WORDS && UpInv(blocks, s, Unlinked(Child(k, j))) && Has(s, Child(k, j))
    requires k in s.node && blocks[s.node[k]][j] == 0
    requires forall k2 :: Has(s, k2) ==> Target(s, k2) > 0
    ensures UpInv(blocks[s.node[k] := blocks[s.node[k]][j := Target(s, Child(k, j))]], s, NoHole)
  {
    var c := Child(k, j);
    var blocks' := blocks[s.node[k] := blocks[s.node[k]][j := Target(s, c)]];
    ChildParent(k, j);
    forall k2 | Has(s, k2) && k2.depth > 0 ensures Linked(blocks', s, k2) {
      if k2 != c {
        assert Linked(blocks, s, k2);
        ParentChild(k2);
      }
    }
  }

  /** A node gets the reference to the place that was not linked. */
  lemma LinkTree(blocks: seq<Block>, s: Shape, k: Key, j: nat)
    requires j < WORDS && TreeInv(blocks, s, Unlinked(Child(k, j)))
    requires k in s.node && blocks[s.node[k]][j] == 0
    ensures TreeInv(blocks[s.node[k] := blocks[s.node[k]][j := Target(s, Child(k, j))]], s, NoHole)
  {
    hide UpInv, DirInv;
    var c, b := Child(k, j), s.node[k];
    var blocks' := blocks[b := blocks[b][j := Target(s, c)]];
    forall k2 | Has(s, k2) ensures Target(s, k2) > 0 { TargetPositive(s, |blocks|, k2); }
    LinkUp(blocks, s, k, j);
    forall k2: Key, j2: nat | k2 in s.node && j2 < WORDS ensures RefOk(blocks', s, k2, j2) {
      assert RefOk(blocks, s, k2, j2);
    }
    assert blocks'[b][j] > 0;
  }

  lemma LinkInv(d: Disk, s: Shape, reserved: set<nat>, k: Key, j: nat)
    requires j < WORDS && Inv(d, s, reserved, Unlinked(Child(k, j)))
    requires k in s.node && d.blocks[s.node[k]][j] == 0
    ensures var b := s.node[k];
            Inv(d.(blocks := d.blocks[b := d.blocks[b][j := Target(s, Child(k, j))]]), s, reserved, NoHole)
  {
    hide DownInv, UpInv, NonEmptyInv, DataInv, FreeInv, PartialInv;
    LinkTree(d.blocks, s, k, j);
    var b := s.node[k];
    RestFrame(d, d.(blocks := d.blocks[b := d.blocks[b][j := Target(s, Child(k, j))]]), s, s, reserved);
  }

  function AddNode(s: Shape, k: Key, blk: nat): Shape
    requires blk < |s.role|
  {
    s.(role := s.role[blk := Tree(k.depth, k.prefix)], node := s.node[k := blk])
  }

  lemma TargetPositive(s: Shape, n: nat, k: Key)
    requires RoleInv(s, n) && DirInv(s) && Has(s, k)
    ensures Target(s, k) > 0
  {
  }

  lemma AddNodeRole(s: Shape, k: Key, blk: nat, n: nat)
    requires RoleInv(s, n) && k !in s.node && 0 < k.depth < DEPTH && 0 < blk < n && s.role[blk] == Limbo
    ensures RoleInv(AddNode(s, k, blk), n)
  {
  }

  lemma AddNodeDir(s: Shape, k: Key, blk: nat)
    requires DirInv(s) && blk < |s.role| && s.role[blk] == Limbo
    ensures DirInv(AddNode(s, k, blk))
  {
  }

  /** A fresh block becomes the node above the place that was not linked. */
  lemma NewNodeUp(blocks: seq<Block>, blocks': seq<Block>, s: Shape, k: Key, j: nat, blk: nat)
    requires j < WORDS && RoleInv(s, |blocks|) && UpInv(blocks, s, Unlinked(Child(k, j)))
    requires Has(s, Child(k, j)) && k !in s.node && 0 < k.depth < DEPTH && blk < |blocks| && s.role[blk] == Limbo
    requires |blocks'| == |blocks| && blocks'[blk][j] == Target(s, Child(k, j))
    requires forall b :: 0 <= b < |blocks| && b != blk ==> blocks'[b] == blocks[b]
    ensures UpInv(blocks', AddNode(s, k, blk), Unlinked(k))
  {
    var s' := AddNode(s, k, blk);
    ChildParent(k, j);
    forall k2 | Has(s', k2) && k2.depth > 0 && k2 != k ensures Linked(blocks', s', k2) {
      if k2 != Child(k, j) { assert Has(s, k2) && Linked(blocks, s, k2); }
    }
  }

  lemma NewNodeDown(blocks: seq<Block>, blocks': seq<Block>, s: Shape, k: Key, j: nat, blk: nat)
    requires j < WORDS && RoleInv(s, |blocks|) && DownInv(blocks, s, Unlinked(Child(k, j)))
    requires Has(s, Child(k, j)) && k !in s.node && 0 < k.depth < DEPTH && blk < |blocks| && s.role[blk] == Limbo
    requires |blocks'| == |blocks| && blocks'[blk] == EMPTY_BLOCK[j := Target(s, Child(k, j))]
    requires forall b :: 0 <= b < |blocks| && b != blk ==> blocks'[b] == blocks[b]
    requires RoleInv(AddNode(s, k, blk), |blocks'|)
    ensures DownInv(blocks', AddNode(s, k, blk), Unlinked(k))
  {
    var s' := AddNode(s, k, blk);
    forall k2: Key, j2: nat | k2 in s'.node && j2 < WORDS ensures RefOk(blocks', s', k2, j2) {
      if k2 == k {
        assert j2 != j ==> blocks'[blk][j2] == 0;
      } else {
        assert RefOk(blocks, s, k2, j2);
      }
    }
  }

  lemma NewNodeTree(blocks: seq<Block>, s: Shape, k: Key, j: nat, blk: nat)
    requires j < WORDS && TreeInv(blocks, s, Unlinked(Child(k, j)))
    requires k !in s.node && 0 < k.depth < DEPTH && 0 < blk < |blocks| && s.role[blk] == Limbo
    ensures TreeInv(blocks[blk := EMPTY_BLOCK[j := Target(s, Child(k, j))]], AddNode(s, k, blk), Unlinked(k))
  {
    hide UpInv, DownInv, DirInv, RoleInv;
    RoleLength(s, |blocks|);
    var buf: Block := EMPTY_BLOCK[j := Target(s, Child(k, j))];
    var blocks', s' := blocks[blk := buf], AddNode(s, k, blk);
    TargetPositive(s, |blocks|, Child(k, j));
    assert buf[j] > 0;
    AddNodeRole(s, k, blk, |blocks|);
    AddNodeDir(s, k, blk);
    NewNodeUp(blocks, blocks', s, k, j, blk);
    NewNodeDown(blocks, blocks', s, k, j, blk);
  }

  lemma NewNodeInv(d: Disk, s: Shape, reserved: set<nat>, k: Key, j: nat, blk: nat)
    requires j < WORDS && Inv(d, s, reserved, Unlinked(Child(k, j)))
    requires k !in s.node && 0 < k.depth < DEPTH && 0 < blk < |d.blocks| && s.role[blk] == Limbo
    ensures Inv(d.(blocks := d.blocks[blk := EMPTY_BLOCK[j := Target(s, Child(k, j))]]), AddNode(s, k, blk),
                reserved, Unlinked(k))
  {
    hide RoleInv, DirInv, DownInv, UpInv, NonEmptyInv, DataInv, FreeInv, PartialInv;
    RoleLength(s, |d.blocks|);
    NewNodeTree(d.blocks, s, k, j, blk);
    RestFrame(d, d.(blocks := d.blocks[blk := EMPTY_BLOCK[j := Target(s, Child(k, j))]]),
              s, AddNode(s, k, blk), reserved);
  }

  /** A node loses the reference to a place that is gone, and stays. */
  lemma UnlinkDown(blocks: seq<Block>, s: Shape, k: Key, j: nat)
    requires RoleInv(s, |blocks|) && j < WORDS && DownInv(blocks, s, Dangling(Child(k, j))) && k in s.node
    ensures DownInv(blocks[s.node[k] := blocks[s.node[k]][j := 0]], s, NoHole)
  {
    var blocks' := blocks[s.node[k] := blocks[s.node[k]][j := 0]];
    forall k2: Key, j2: nat | k2 in s.node && j2 < WORDS ensures RefOk(blocks', s, k2, j2) {
      if k2 != k || j2 != j {
        ChildParent(k, j);
        ChildParent(k2, j2);
        assert RefOk(blocks, s, k2, j2);
      }
    }
  }

  lemma UnlinkUp(blocks: seq<Block>, s: Shape, k: Key, j: nat)
    requires RoleInv(s, |blocks|) && j < WORDS && UpInv(blocks, s, Dangling(Child(k, j))) && k in s.node
    requires !Has(s, Child(k, j))
    ensures UpInv(blocks[s.node[k] := blocks[s.node[k]][j := 0]], s, NoHole)
  {
    var blocks' := blocks[s.node[k] := blocks[s.node[k]][j := 0]];
    forall k2 | Has(s, k2) && k2.depth > 0 ensures Linked(blocks', s, k2) {
      assert Linked(blocks, s, k2);
      ParentChild(k2);
    }
  }

  lemma UnlinkTree(blocks: seq<Block>, s: Shape, k: Key, j: nat)
    requires j < WORDS && TreeInv(blocks, s, Dangling(Child(k, j))) && k in s.node
    requires k.depth > 0 ==> blocks[s.node[k]][j := 0] != EMPTY_BLOCK
    ensures TreeInv(blocks[s.node[k] := blocks[s.node[k]][j := 0]], s, NoHole)
  {
    hide DirInv, UpInv, DownInv;
    UnlinkDown(blocks, s, k, j);
    UnlinkUp(blocks, s, k, j);
  }

  lemma UnlinkRefInv(d: Disk, s: Shape, reserved: set<nat>, k: Key, j: nat)
    requires j < WORDS && Inv(d, s, reserved, Dangling(Child(k, j))) && k in s.node
    requires k.depth > 0 ==> d.blocks[s.node[k]][j := 0] != EMPTY_BLOCK
    ensures Inv(d.(blocks := d.blocks[s.node[k] := d.blocks[s.node[k]][j := 0]]), s, reserved, NoHole)
  {
    hide DownInv, UpInv, NonEmptyInv, DataInv, FreeInv, PartialInv;
    UnlinkTree(d.blocks, s, k, j);
    RestFrame(d, d.(blocks := d.blocks[s.node[k] := d.blocks[s.node[k]][j := 0]]), s, s, reserved);
  }

  function DropNode(s: Shape, k: Key): Shape
    requires k in s.node && s.node[k] < |s.role|
  {
    s.(role := s.role[s.node[k] := Limbo], node := s.node - {k})
  }

  /** No place is linked below a node that has at most a dangling reference. */
  lemma NoChildren(blocks: seq<Block>, s: Shape, k: Key, j: nat, k2: Key)
    requires RoleInv(s, |blocks|) && DirInv(s) && j < WORDS && k in s.node && !Has(s, Child(k, j))
    requires forall i :: 0 <= i < WORDS && i != j ==> blocks[s.node[k]][i] == 0
    requires k2.depth > 0 && Has(s, k2) && Linked(blocks, s, k2)
    ensures Parent(k2) != k
  {
    TargetPositive(s, |blocks|, k2);
    ParentChild(k2);
  }

  /** A node that loses its last reference is dropped; its block is to be freed. */
  lemma DropNodeUp(blocks: seq<Block>, s: Shape, k: Key, j: nat)
    requires j < WORDS && RoleInv(s, |blocks|) && DirInv(s) && UpInv(blocks, s, Dangling(Child(k, j)))
    requires !Has(s, Child(k, j)) && k in s.node && forall i :: 0 <= i < WORDS && i != j ==> blocks[s.node[k]][i] == 0
    ensures UpInv(blocks, DropNode(s, k), Dangling(k))
  {
    hide DirInv, RoleInv;
    RoleRange(s, |blocks|, k);
    var s' := DropNode(s, k);
    forall k2 | Has(s', k2) && k2.depth > 0 ensures Linked(blocks, s', k2) {
      assert Has(s, k2) && Linked(blocks, s, k2);
      NoChildren(blocks, s, k, j, k2);
    }
  }

  lemma RoleRange(s: Shape, n: nat, k: Key)
    requires RoleInv(s, n) && k in s.node
    ensures 0 < s.node[k] < n == |s.role|
  {
  }

  lemma DropNodeDown(blocks: seq<Block>, s: Shape, k: Key, j: nat)
    requires j < WORDS && RoleInv(s, |blocks|) && DownInv(blocks, s, Dangling(Child(k, j))) && k in s.node
    requires RoleInv(DropNode(s, k), |blocks|)
    ensures DownInv(blocks, DropNode(s, k), Dangling(k))
  {
    var s' := DropNode(s, k);
    ChildParent(k, j);
    forall k2: Key, j2: nat | k2 in s'.node && j2 < WORDS && Child(k2, j2) != k ensures RefOk(blocks, s', k2, j2) {
      ChildParent(k2, j2);
      assert RefOk(blocks, s, k2, j2);
    }
  }

  lemma DropNodeRole(s: Shape, k: Key, n: nat)
    requires RoleInv(s, n) && DirInv(s) && k in s.node
    ensures RoleInv(DropNode(s, k), n) && DirInv(DropNode(s, k))
  {
  }

  lemma DropNodeTree(blocks: seq<Block>, s: Shape, k: Key, j: nat)
    requires j < WORDS && TreeInv(blocks, s, Dangling(Child(k, j))) && k in s.node
    requires blocks[s.node[k]][j := 0] == EMPTY_BLOCK
    ensures TreeInv(blocks, DropNode(s, k), Dangling(k))
  {
    hide UpInv, DownInv;
    var b, s' := s.node[k], DropNode(s, k);
    DropNodeRole(s, k, |blocks|);
    forall i | 0 <= i < WORDS && i != j ensures blocks[b][i] == 0 { assert blocks[b][j := 0][i] == 0; }
    DropNodeUp(blocks, s, k, j);
    DropNodeDown(blocks, s, k, j);
  }

  lemma DropNodeInv(d: Disk, s: Shape, reserved: set<nat>, k: Key, j: nat)
    requires j < WORDS && Inv(d, s, reserved, Dangling(Child(k, j))) && k in s.node
    requires d.blocks[s.node[k]][j := 0] == EMPTY_BLOCK
    ensures Inv(d, DropNode(s, k), reserved, Dangling(k))
  {
    hide DownInv, UpInv, NonEmptyInv, DataInv, FreeInv, PartialInv;
    DropNodeTree(d.blocks, s, k, j);
    RestFrame(d, d, s, DropNode(s, k), reserved);
  }

  // ---- reserving a slot

  /** A change to the data block of slot `sl` that touches no other record, and to links elsewhere. */
  predicate OnlySlot(d: Disk, s: Shape, d': Disk, sl: Slot) {
    && |s.role| == |d.blocks| == |d'.blocks| && sl.blk < |d.blocks|
    && (forall b :: 0 <= b < |d.blocks| && b != sl.blk ==>
          if s.role[b] == Data then SameBody(d'.blocks[b], d.blocks[b]) else d'.blocks[b] == d.blocks[b])
    && (s.role[sl.blk] == Data ==> forall i :: 0 <= i < SLOTS && i != sl.i ==>
          Rec(d'.blocks[sl.blk], i) == Rec(d.blocks[sl.blk], i))
  }

  lemma OnlySlotNodes(d: Disk, s: Shape, d': Disk, sl: Slot)
    requires RoleInv(s, |d.blocks|) && OnlySlot(d, s, d', sl) && !s.role[sl.blk].Tree?
    ensures NodesSame(d.blocks, d'.blocks, s)
  {
  }

  lemma OnlySlotFree(d: Disk, s: Shape, d': Disk, s': Shape, sl: Slot)
    requires OnlySlot(d, s, d', sl) && FreeInv(d, s) && s.role[sl.blk] != Free
    requires d'.freeBlk == d.freeBlk && s'.free == s.free && |s'.role| == |s.role|
    requires forall b :: 0 <= b < |s.role| ==> (s'.role[b] == Free <==> s.role[b] == Free)
    ensures FreeInv(d', s')
  {
    hide Chain;
    ChainRange(d.blocks, s.free, d.freeBlk);
    ChainFrame(d.blocks, d'.blocks, s.free, d.freeBlk);
  }

  lemma ChainRange(blocks: seq<Block>, list: seq<nat>, head: nat)
    requires Chain(blocks, list, head)
    ensures forall b :: b in list ==> 0 < b < |blocks|
  {
  }

  function Leaf(id: nat): Key { Key(DEPTH, id) }

  function AddId(s: Shape, id: nat, sl: Slot, partial: seq<nat>): Shape
    requires sl.blk < |s.role|
  {
    s.(role := s.role[sl.blk := Data], dir := s.dir[id := sl], owner := s.owner[sl := id], partial := partial)
  }

  /** `blk` is a data block, or was taken to become one. */
  predicate Room(s: Shape, id: nat, sl: Slot) {
    && id < MAX_ID && id !in s.dir && sl !in s.owner && sl.i < SLOTS
    && 0 < sl.blk < |s.role| && (s.role[sl.blk] == Data || s.role[sl.blk] == Limbo)
  }

  lemma ReserveDir(s: Shape, n: nat, id: nat, sl: Slot, partial: seq<nat>)
    requires RoleInv(s, n) && DirInv(s) && Room(s, id, sl)
    ensures RoleInv(AddId(s, id, sl, partial), n) && DirInv(AddId(s, id, sl, partial))
  {
  }

  lemma ReserveTree(blocks: seq<Block>, blocks': seq<Block>, s: Shape, id: nat, sl: Slot, partial: seq<nat>)
    requires TreeInv(blocks, s, NoHole) && Room(s, id, sl)
    requires |blocks'| == |blocks| && NodesSame(blocks, blocks', s)
    ensures TreeInv(blocks', AddId(s, id, sl, partial), Unlinked(Leaf(id)))
  {
    hide RoleInv, DirInv, UpInv, DownInv;
    var s' := AddId(s, id, sl, partial);
    ReserveDir(s, |blocks|, id, sl, partial);
    DownFrame(blocks, blocks', s, s', NoHole, Unlinked(Leaf(id)));
    UpFrame(blocks, blocks', s, s', NoHole, Unlinked(Leaf(id)));
  }

  /** A data block with one entry more, whose record is still zero. */
  lemma ReserveSlot(owner: map<Slot, nat>, id: nat, sl: Slot, block': Block)
    requires sl !in owner && sl.i < SLOTS && Entries(block') == Used(owner, sl.blk, SLOTS) + 1
    requires forall i :: 0 <= i < SLOTS ==> SlotOk(owner, Slot(sl.blk, i), Rec(block', i), {})
    requires forall i :: Slot(sl.blk, i) in owner ==> owner[Slot(sl.blk, i)] != id
    ensures DataBlock(owner[sl := id], sl.blk, block', {id})
  {
    hide Used;
    UsedAdd(owner, sl.blk, SLOTS, sl.i, id);
    forall i | 0 <= i < SLOTS ensures SlotOk(owner[sl := id], Slot(sl.blk, i), Rec(block', i), {id}) {
      assert SlotOk(owner, Slot(sl.blk, i), Rec(block', i), {});
    }
  }

  lemma ReserveData(blocks: seq<Block>, blocks': seq<Block>, s: Shape, id: nat, sl: Slot, partial: seq<nat>)
    requires |s.role| == |blocks| == |blocks'| && DirInv(s) && DataInv(blocks, s, {}) && Room(s, id, sl)
    requires forall b :: 0 <= b < |blocks| && b != sl.blk && s.role[b] == Data ==> SameBody(blocks'[b], blocks[b])
    requires Entries(blocks'[sl.blk]) == Used(s.owner, sl.blk, SLOTS) + 1
    requires forall i :: 0 <= i < SLOTS ==> SlotOk(s.owner, Slot(sl.blk, i), Rec(blocks'[sl.blk], i), {})
    ensures DataInv(blocks', AddId(s, id, sl, partial), {id})
  {
    hide Used, SlotOk, DataBlock, SameBody;
    var owner' := s.owner[sl := id];
    ReserveSlot(s.owner, id, sl, blocks'[sl.blk]);
    forall b | 0 <= b < |blocks| && b != sl.blk && s.role[b] == Data ensures DataBlock(owner', b, blocks'[b], {id}) {
      OtherBlock(s.owner, owner', b, blocks[b], blocks'[b], {}, {id});
    }
  }

  lemma ReservePartial(d: Disk, d': Disk, s: Shape, id: nat, sl: Slot, partial: seq<nat>)
    requires |s.role| == |d.blocks| == |d'.blocks| && PartialInv(d, s) && Room(s, id, sl)
    requires DoubleChain(d'.blocks, partial, d'.freeEntry)
    requires forall b :: b != sl.blk ==> (b in partial <==> b in s.partial)
    requires sl.blk in partial <==> Used(s.owner, sl.blk, SLOTS) + 1 < SLOTS
    ensures PartialInv(d', AddId(s, id, sl, partial))
  {
    hide Used;
    var owner' := s.owner[sl := id];
    forall b | 0 <= b < |d.blocks|
      ensures b in partial <==> (b == sl.blk || s.role[b] == Data) && Used(owner', b, SLOTS) < SLOTS
    {
      if b == sl.blk { UsedAdd(s.owner, b, SLOTS, sl.i, id); } else { UsedSame(s.owner, owner', b, SLOTS); }
    }
  }

  /** A slot is set aside for a new id; its record is still zero and nothing refers to it yet. */
  lemma ReserveInv(d: Disk, d': Disk, s: Shape, id: nat, sl: Slot, partial: seq<nat>)
    requires Inv(d, s, {}, NoHole) && Room(s, id, sl)
    requires OnlySlot(d, s, d', sl) && d'.freeBlk == d.freeBlk
    requires Entries(d'.blocks[sl.blk]) == Used(s.owner, sl.blk, SLOTS) + 1
    requires forall i :: 0 <= i < SLOTS ==> SlotOk(s.owner, Slot(sl.blk, i), Rec(d'.blocks[sl.blk], i), {})
    requires DoubleChain(d'.blocks, partial, d'.freeEntry)
    requires forall b :: b != sl.blk ==> (b in partial <==> b in s.partial)
    requires sl.blk in partial <==> Used(s.owner, sl.blk, SLOTS) + 1 < SLOTS
    ensures Inv(d', AddId(s, id, sl, partial), {id}, Unlinked(Leaf(id)))
  {
    hide RoleInv, DirInv, DownInv, UpInv, NonEmptyInv, DoubleChain, DataInv, FreeInv, PartialInv, Used, SlotOk;
    RoleLength(s, |d.blocks|);
    OnlySlotNodes(d, s, d', sl);
    ReserveTree(d.blocks, d'.blocks, s, id, sl, partial);
    ReserveData(d.blocks, d'.blocks, s, id, sl, partial);
    ReservePartial(d, d', s, id, sl, partial);
    OnlySlotFree(d, s, d', AddId(s, id, sl, partial), sl);
  }

  // ---- writing a record

  /** Writing a record; one that is all zero leaves the slot as if it were only reserved. */
  lemma WriteInv(d: Disk, s: Shape, reserved: set<nat>, id: nat, r: Record)
    requires reserved <= {id} && Inv(d, s, reserved, NoHole) && id in s.dir && RecId(r) == id
    ensures var sl := s.dir[id];
            Inv(d.(blocks := d.blocks[sl.blk := WithRec(d.blocks[sl.blk], sl.i, r)]), s,
                if r == EMPTY_RECORD then {id} else {}, NoHole)
  {
    hide DownInv, UpInv, NonEmptyInv, WithRec, Used, DataBlock;
    var sl := s.dir[id];
    var block := d.blocks[sl.blk];
    var d' := d.(blocks := d.blocks[sl.blk := WithRec(block, sl.i, r)]);
    WithRecGet(block, sl.i, r);
    TreeFrame(d.blocks, d'.blocks, s, s, NoHole);
    WriteData(d.blocks, s, reserved, id, r);
    PartialFrame(d, d', s, s);
    ChainFrame(d.blocks, d'.blocks, s.free, d.freeBlk);
  }

  lemma WriteData(blocks: seq<Block>, s: Shape, reserved: set<nat>, id: nat, r: Record)
    requires |s.role| == |blocks| && DirInv(s) && DataInv(blocks, s, reserved) && reserved <= {id} && id in s.dir
    requires RecId(r) == id
    ensures DataInv(blocks[s.dir[id].blk := WithRec(blocks[s.dir[id].blk], s.dir[id].i, r)], s,
                    if r == EMPTY_RECORD then {id} else {})
  {
    hide Used, WithRec, Rec, RecId;
    var reserved' := if r == EMPTY_RECORD then {id} else {};
    var sl := s.dir[id];
    var blocks' := blocks[sl.blk := WithRec(blocks[sl.blk], sl.i, r)];
    WithRecGet(blocks[sl.blk], sl.i, r);
    forall b | 0 <= b < |blocks| && s.role[b] == Data ensures DataBlock(s.owner, b, blocks'[b], reserved') {
      assert DataBlock(s.owner, b, blocks[b], reserved);
      forall i | 0 <= i < SLOTS ensures SlotOk(s.owner, Slot(b, i), Rec(blocks'[b], i), reserved') {
        assert SlotOk(s.owner, Slot(b, i), Rec(blocks[b], i), reserved);
      }
    }
  }

  // ---- releasing a slot

  /** The shape without `id`; its block is `Limbo` when nothing is left in it. */
  function RemoveId(s: Shape, id: nat, partial: seq<nat>): Shape
    requires id in s.dir && s.dir[id].blk < |s.role|
  {
    var sl := s.dir[id];
    var role := if Used(s.owner, sl.blk, SLOTS) == 1 then s.role[sl.blk := Limbo] else s.role;
    s.(role := role, dir := s.dir - {id}, owner := s.owner - {sl}, partial := partial)
  }

  lemma ReleaseDir(s: Shape, n: nat, id: nat, partial: seq<nat>)
    requires RoleInv(s, n) && DirInv(s) && id in s.dir
    ensures RoleInv(RemoveId(s, id, partial), n) && DirInv(RemoveId(s, id, partial))
  {
    var sl := s.dir[id];
    UsedRemove(s.owner, sl.blk, SLOTS, sl.i);
    UsedBounds(s.owner - {sl}, sl.blk, SLOTS);
    var s' := RemoveId(s, id, partial);
    forall id' | id' in s'.dir ensures s'.role[s'.dir[id'].blk] == Data {
      assert s.dir[id'] != sl && s'.dir[id'] in s'.owner;
      assert s'.dir[id'] == Slot(s.dir[id'].blk, s.dir[id'].i);
    }
  }

  lemma ReleaseTree(blocks: seq<Block>, blocks': seq<Block>, s: Shape, id: nat, partial: seq<nat>)
    requires TreeInv(blocks, s, NoHole) && id in s.dir
    requires |blocks'| == |blocks| && NodesSame(blocks, blocks', s)
    ensures TreeInv(blocks', RemoveId(s, id, partial), Dangling(Leaf(id)))
  {
    hide RoleInv, UpInv, DownInv, Used;
    RoleLength(s, |blocks|);
    var s' := RemoveId(s, id, partial);
    ReleaseDir(s, |blocks|, id, partial);
    DownFrame(blocks, blocks', s, s', NoHole, Dangling(Leaf(id)));
    UpFrame(blocks, blocks', s, s', NoHole, Dangling(Leaf(id)));
  }

  lemma ReleaseData(blocks: seq<Block>, blocks': seq<Block>, s: Shape, id: nat, partial: seq<nat>)
    requires |s.role| == |blocks| == |blocks'| && DirInv(s) && DataInv(blocks, s, {}) && id in s.dir
    requires forall b :: 0 <= b < |blocks| && b != s.dir[id].blk && s.role[b] == Data ==> SameBody(blocks'[b], blocks[b])
    requires var sl := s.dir[id];
             Used(s.owner, sl.blk, SLOTS) > 1 ==>
               && Entries(blocks'[sl.blk]) == Used(s.owner, sl.blk, SLOTS) - 1
               && Rec(blocks'[sl.blk], sl.i) == EMPTY_RECORD
               && forall i :: 0 <= i < SLOTS && i != sl.i ==> Rec(blocks'[sl.blk], i) == Rec(blocks[sl.blk], i)
    ensures DataInv(blocks', RemoveId(s, id, partial), {})
  {
    hide Used;
    var sl, owner' := s.dir[id], s.owner - {s.dir[id]};
    assert DataBlock(s.owner, sl.blk, blocks[sl.blk], {});
    UsedRemove(s.owner, sl.blk, SLOTS, sl.i);
    forall b | 0 <= b < |blocks| && RemoveId(s, id, partial).role[b] == Data
      ensures DataBlock(owner', b, blocks'[b], {})
    {
      assert DataBlock(s.owner, b, blocks[b], {});
      if b == sl.blk {
        ClearSlot(s.owner, sl, blocks[b], blocks'[b]);
      } else {
        OtherBlock(s.owner, owner', b, blocks[b], blocks'[b], {}, {});
      }
    }
  }

  /** A data block with one entry less. */
  lemma ClearSlot(owner: map<Slot, nat>, sl: Slot, block: Block, block': Block)
    requires DataBlock(owner, sl.blk, block, {}) && sl in owner && sl.i < SLOTS
    requires Entries(block') == Entries(block) - 1 > 0 && Rec(block', sl.i) == EMPTY_RECORD
    requires forall i :: 0 <= i < SLOTS && i != sl.i ==> Rec(block', i) == Rec(block, i)
    ensures DataBlock(owner - {sl}, sl.blk, block', {})
  {
    hide Used;
    UsedRemove(owner, sl.blk, SLOTS, sl.i);
    forall i | 0 <= i < SLOTS ensures SlotOk(owner - {sl}, Slot(sl.blk, i), Rec(block', i), {}) {
      assert SlotOk(owner, Slot(sl.blk, i), Rec(block, i), {});
    }
  }

  /** A data block in which no slot has changed hands. */
  lemma OtherBlock(
      owner: map<Slot, nat>, owner': map<Slot, nat>, b: nat, block: Block, block': Block,
      reserved: set<nat>, reserved': set<nat>)
    requires DataBlock(owner, b, block, reserved) && SameBody(block', block)
    requires forall i :: Slot(b, i) in owner <==> Slot(b, i) in owner'
    requires forall i :: Slot(b, i) in owner ==>
               owner'[Slot(b, i)] == owner[Slot(b, i)] && (owner[Slot(b, i)] in reserved <==> owner[Slot(b, i)] in reserved')
    ensures DataBlock(owner', b, block', reserved')
  {
    hide Used;
    UsedSame(owner, owner', b, SLOTS);
    BodyKeepsRecords(block', block);
    forall i | 0 <= i < SLOTS ensures SlotOk(owner', Slot(b, i), Rec(block', i), reserved') {
      assert SlotOk(owner, Slot(b, i), Rec(block, i), reserved);
    }
  }

  lemma ReleasePartial(d: Disk, d': Disk, s: Shape, id: nat, partial: seq<nat>)
    requires |s.role| == |d.blocks| == |d'.blocks| && DirInv(s) && PartialInv(d, s) && id in s.dir
    requires DoubleChain(d'.blocks, partial, d'.freeEntry)
    requires forall b :: b != s.dir[id].blk ==> (b in partial <==> b in s.partial)
    requires s.dir[id].blk in partial <==> Used(s.owner, s.dir[id].blk, SLOTS) > 1
    ensures PartialInv(d', RemoveId(s, id, partial))
  {
    hide Used;
    var sl, owner' := s.dir[id], s.owner - {s.dir[id]};
    UsedRemove(s.owner, sl.blk, SLOTS, sl.i);
    UsedBounds(s.owner, sl.blk, SLOTS);
    forall b | 0 <= b < |d.blocks| && b != sl.blk ensures Used(owner', b, SLOTS) == Used(s.owner, b, SLOTS) {
      UsedSame(s.owner, owner', b, SLOTS);
    }
  }

  /** The slot of `id` is given up; the reference to it is still there. */
  lemma ReleaseInv(d: Disk, d': Disk, s: Shape, id: nat, partial: seq<nat>)
    requires Inv(d, s, {}, NoHole) && id in s.dir
    requires OnlySlot(d, s, d', s.dir[id]) && d'.freeBlk == d.freeBlk
    requires var sl := s.dir[id];
             Used(s.owner, sl.blk, SLOTS) > 1 ==>
               && Entries(d'.blocks[sl.blk]) == Used(s.owner, sl.blk, SLOTS) - 1
               && Rec(d'.blocks[sl.blk], sl.i) == EMPTY_RECORD
    requires DoubleChain(d'.blocks, partial, d'.freeEntry)
    requires forall b :: b != s.dir[id].blk ==> (b in partial <==> b in s.partial)
    requires s.dir[id].blk in partial <==> Used(s.owner, s.dir[id].blk, SLOTS) > 1
    ensures Inv(d', RemoveId(s, id, partial), {}, Dangling(Leaf(id)))
  {
    hide RoleInv, DownInv, UpInv, NonEmptyInv, DoubleChain, DataInv, FreeInv, PartialInv, Used, SlotOk;
    RoleLength(s, |d.blocks|);
    OnlySlotNodes(d, s, d', s.dir[id]);
    ReleaseTree(d.blocks, d'.blocks, s, id, partial);
    ReleaseData(d.blocks, d'.blocks, s, id, partial);
    ReleasePartial(d, d', s, id, partial);
    OnlySlotFree(d, s, d', RemoveId(s, id, partial), s.dir[id]);
  }
}
