/**
 Reserving and releasing slots of data blocks: the cases of `find_free_dqentry` and `free_dqentry`,
 each with its effect on the list of blocks with room.
 */
module QuotaSlots {
  import opened Basics
  import opened QuotaBlocks
  import opened QuotaShape
  import opened QuotaSteps
  import opened QuotaLookup

  function RecordAt(blocks: seq<Block>, sl: Slot): Record {
    if sl.blk < |blocks| && sl.i < SLOTS then Rec(blocks[sl.blk], sl.i) else EMPTY_RECORD
  }

  /**
   What a change of the tree from depth `depth` downwards keeps: the slot and the record of every id
   that stays, and the nodes above.
   */
  ghost predicate Keeps(d: Disk, s: Shape, d': Disk, s': Shape, depth: nat) {
    && |d.blocks| <= |d'.blocks|
    && (forall id :: id in s.dir && id in s'.dir ==> s'.dir[id] == s.dir[id])
    && (forall id :: id in s.dir && id in s'.dir ==>
          RecordAt(d'.blocks, s.dir[id]) == RecordAt(d.blocks, s.dir[id]))
    && (forall k: Key :: k.depth < depth ==> (k in s.node <==> k in s'.node))
    && (forall k :: k in s.node && k.depth < depth ==> k in s'.node && s'.node[k] == s.node[k])
    && (forall k :: k in s.node && k.depth < depth ==>
          BlockAt(d'.blocks, s.node[k]) == BlockAt(d.blocks, s.node[k]))
  }

  /** The file grows only when no block is free. */
  predicate FreeFirst(d: Disk, d': Disk) {
    && |d.blocks| <= |d'.blocks| && (|d.blocks| < |d'.blocks| ==> d'.freeBlk == 0)
    && (d.freeBlk == 0 ==> d'.freeBlk == 0)
  }

  /** The same blocks are in limbo. */
  predicate SameLimbo(s: Shape, s': Shape) {
    && |s.role| <= |s'.role|
    && forall b :: 0 <= b < |s'.role| ==> (s'.role[b] == Limbo <==> b < |s.role| && s.role[b] == Limbo)
  }

  lemma KeepsTwice(d: Disk, s: Shape, d1: Disk, s1: Shape, d2: Disk, s2: Shape, depth: nat, depth2: nat)
    requires Keeps(d, s, d1, s1, depth2) && Keeps(d1, s1, d2, s2, depth) && depth <= depth2
    requires forall id :: id in s.dir && id in s2.dir ==> id in s1.dir
    ensures Keeps(d, s, d2, s2, depth)
  {
  }

  /** Only blocks change that hold neither data nor a node. */
  lemma KeepsOthers(d: Disk, s: Shape, reserved: set<nat>, hole: Hole, d': Disk, s': Shape)
    requires Inv(d, s, reserved, hole) && |d.blocks| <= |d'.blocks| && s'.dir == s.dir && s'.node == s.node
    requires forall b :: 0 <= b < |d.blocks| && (s.role[b] == Data || s.role[b].Tree?) ==> d'.blocks[b] == d.blocks[b]
    ensures Keeps(d, s, d', s', DEPTH)
  {
    hide DownInv, UpInv, NonEmptyInv, DataInv, FreeInv, PartialInv;
  }

  lemma OnlySlotKeeps(d: Disk, s: Shape, d': Disk, s': Shape, sl: Slot)
    requires Inv(d, s, {}, NoHole) && OnlySlot(d, s, d', sl) && !s.role[sl.blk].Tree? && s'.node == s.node
    requires forall id :: id in s.dir && id in s'.dir ==> s'.dir[id] == s.dir[id] && s.dir[id] != sl
    ensures Keeps(d, s, d', s', DEPTH)
  {
    hide DownInv, UpInv, NonEmptyInv, DataInv, FreeInv, PartialInv;
    forall id | id in s.dir && id in s'.dir ensures RecordAt(d'.blocks, s.dir[id]) == RecordAt(d.blocks, s.dir[id]) {
      var b := s.dir[id].blk;
      if b != sl.blk { BodyKeepsRecords(d'.blocks[b], d.blocks[b]); }
    }
  }

  // ---- the slot found by find_free_dqentry

  /** A data block with room has a zero record, and that slot is not taken. */
  lemma ZeroSlot(owner: map<Slot, nat>, b: nat, block: Block)
    requires Used(owner, b, SLOTS) < SLOTS
    requires forall i :: 0 <= i < SLOTS ==> SlotOk(owner, Slot(b, i), Rec(block, i), {})
    ensures exists i :: 0 <= i < SLOTS && Rec(block, i) == EMPTY_RECORD
    ensures forall i :: 0 <= i < SLOTS && Rec(block, i) == EMPTY_RECORD ==> Slot(b, i) !in owner
  {
    var i := UntakenSlot(owner, b, SLOTS);
    assert SlotOk(owner, Slot(b, i), Rec(block, i), {});
  }

  lemma {:induction false} UntakenSlot(owner: map<Slot, nat>, b: nat, n: nat) returns (i: nat)
    requires Used(owner, b, n) < n
    ensures i < n && Slot(b, i) !in owner
  {
    if Slot(b, n - 1) !in owner { i := n - 1; } else { i := UntakenSlot(owner, b, n - 1); }
  }

  lemma LimboUnused(s: Shape, blk: nat)
    requires DirInv(s) && blk < |s.role| && s.role[blk] != Data
    ensures Used(s.owner, blk, SLOTS) == 0 && forall i :: Slot(blk, i) !in s.owner
  {
    UsedBounds(s.owner, blk, SLOTS);
  }

  // ---- how the three cases of find_free_dqentry reserve a slot

  /** A list is as before if the links of its blocks are. */
  lemma DoubleChainFrame(blocks: seq<Block>, blocks': seq<Block>, list: seq<nat>, head: nat)
    requires DoubleChain(blocks, list, head) && |blocks'| == |blocks|
    requires forall b :: 0 <= b < |blocks| ==> Next(blocks'[b]) == Next(blocks[b]) && Prev(blocks'[b]) == Prev(blocks[b])
    ensures DoubleChain(blocks', list, head)
  {
  }

  /** A data block satisfies its invariant, and is on the list exactly if it has room. */
  lemma DataFacts(d: Disk, s: Shape, reserved: set<nat>, hole: Hole, b: nat)
    requires Inv(d, s, reserved, hole) && b < |d.blocks|
    ensures |s.role| == |d.blocks| && DoubleChain(d.blocks, s.partial, d.freeEntry)
    ensures s.role[b] == Data ==> DataBlock(s.owner, b, d.blocks[b], reserved) && b > 0
    ensures b in s.partial <==> s.role[b] == Data && Used(s.owner, b, SLOTS) < SLOTS
  {
    hide DataBlock, Used, DoubleChain, FreeInv, DirInv, DownInv, UpInv, NonEmptyInv;
  }

  lemma IsData(d: Disk, s: Shape, id: nat)
    requires Inv(d, s, {}, NoHole) && id in s.dir
    ensures |s.role| == |d.blocks| && s.dir[id].blk < |s.role| && s.role[s.dir[id].blk] == Data && s.dir[id].i < SLOTS
  {
    hide DataInv, FreeInv, PartialInv, DownInv, UpInv, NonEmptyInv;
  }

  lemma PartialOf(d: Disk, s: Shape, reserved: set<nat>, hole: Hole)
    requires Inv(d, s, reserved, hole)
    ensures |s.role| == |d.blocks| && PartialInv(d, s) && NoDup(s.partial)
  {
  }

  /** The head of the list is its first block. */
  lemma HeadFacts(blocks: seq<Block>, list: seq<nat>, head: nat)
    requires DoubleChain(blocks, list, head) && head != 0
    ensures list != [] && list[0] == head && head in list
  {
  }

  /** The block written: one entry more, everything else of `buf`. */
  lemma EntryAdded(buf: Block, n: nat)
    ensures SameRecords(WithEntries(buf, n), buf) && Entries(WithEntries(buf, n)) == n
    ensures Next(WithEntries(buf, n)) == Next(buf) && Prev(WithEntries(buf, n)) == Prev(buf)
  {
  }

  /** Taking a block out of the list of blocks with room, and writing `x` to it. */
  lemma UnlinkOnlySlot(d: Disk, s: Shape, k: nat, buf: Block, x: Block, i: nat)
    requires |s.role| == |d.blocks| && PartialInv(d, s) && k < |s.partial|
    requires Next(buf) == Next(d.blocks[s.partial[k]]) && Prev(buf) == Prev(d.blocks[s.partial[k]])
    requires forall w :: HEADER <= w < WORDS ==> x[w] == d.blocks[s.partial[k]][w]
    ensures Next(buf) < |d.blocks| && Prev(buf) < |d.blocks|
    ensures OnlySlot(d, s, Disk(Unlink(d.blocks, s.partial[k], buf)[s.partial[k] := x], d.freeBlk, UnlinkHead(d.freeEntry, buf)),
                     Slot(s.partial[k], i))
  {
    hide Unlink, Used;
    UnlinkFrame(d.blocks, s.partial, d.freeEntry, k, buf);
    assert forall b :: b in s.partial ==> s.role[b] == Data;
    BodyKeepsRecords(x, d.blocks[s.partial[k]]);
  }

  /** Writing a data block whose records are as before. */
  lemma EntryOnly(d: Disk, s: Shape, blk: nat, buf: Block, i: nat)
    requires |s.role| == |d.blocks| && blk < |d.blocks| && SameRecords(buf, d.blocks[blk])
    ensures OnlySlot(d, s, d.(blocks := d.blocks[blk := buf]), Slot(blk, i))
    ensures forall j :: 0 <= j < SLOTS ==> Rec(buf, j) == Rec(d.blocks[blk], j)
  {
  }

  /** A slot with a zero record is room for a new id. */
  lemma RoomInBlock(d: Disk, s: Shape, id: nat, sl: Slot)
    requires id < MAX_ID && id !in s.dir && sl.i < SLOTS && 0 < sl.blk < |s.role| == |d.blocks| && s.role[sl.blk] == Data
    requires DataBlock(s.owner, sl.blk, d.blocks[sl.blk], {}) && Rec(d.blocks[sl.blk], sl.i) == EMPTY_RECORD
    ensures Room(s, id, sl)
  {
    assert SlotOk(s.owner, Slot(sl.blk, sl.i), Rec(d.blocks[sl.blk], sl.i), {});
  }

  lemma ReserveFits(d: Disk, s: Shape, id: nat, i: nat)
    requires Inv(d, s, {}, NoHole) && id < MAX_ID && id !in s.dir && d.freeEntry != 0 && i < SLOTS
    requires d.freeEntry < |d.blocks| && Entries(d.blocks[d.freeEntry]) + 1 < SLOTS
    requires Rec(d.blocks[d.freeEntry], i) == EMPTY_RECORD
    ensures var blk := d.freeEntry;
            var buf := WithEntries(d.blocks[blk], Entries(d.blocks[blk]) + 1);
            && s.role[blk] == Data
            && Inv(d.(blocks := d.blocks[blk := buf]), AddId(s, id, Slot(blk, i), s.partial), {id}, Unlinked(Leaf(id)))
            && OnlySlot(d, s, d.(blocks := d.blocks[blk := buf]), Slot(blk, i))
  {
    hide Inv, DoubleChain, Used, SlotOk, SameRecords;
    var blk := d.freeEntry;
    DataFacts(d, s, {}, NoHole, blk);
    HeadFacts(d.blocks, s.partial, blk);
    var buf := WithEntries(d.blocks[blk], Entries(d.blocks[blk]) + 1);
    var d' := d.(blocks := d.blocks[blk := buf]);
    EntryAdded(d.blocks[blk], Entries(d.blocks[blk]) + 1);
    EntryOnly(d, s, blk, buf, i);
    RoomInBlock(d, s, id, Slot(blk, i));
    DoubleChainFrame(d.blocks, d'.blocks, s.partial, d.freeEntry);
    ReserveInv(d, d', s, id, Slot(blk, i), s.partial);
  }

  lemma ReserveFills(d: Disk, s: Shape, id: nat, i: nat)
    requires Inv(d, s, {}, NoHole) && id < MAX_ID && id !in s.dir && d.freeEntry != 0 && i < SLOTS
    requires d.freeEntry < |d.blocks| && Entries(d.blocks[d.freeEntry]) + 1 >= SLOTS
    requires Rec(d.blocks[d.freeEntry], i) == EMPTY_RECORD
    ensures var blk := d.freeEntry;
            var buf := d.blocks[blk];
            && s.role[blk] == Data && s.partial != []
            && Next(buf) < |d.blocks| && Prev(buf) < |d.blocks|
            && var full := WithEntries(WithPrev(WithNext(buf, 0), 0), Entries(buf) + 1);
               var d' := Disk(Unlink(d.blocks, blk, buf)[blk := full], d.freeBlk, UnlinkHead(d.freeEntry, buf));
               var s' := AddId(s, id, Slot(blk, i), RemoveAt(s.partial, 0));
               Inv(d', s', {id}, Unlinked(Leaf(id))) && OnlySlot(d, s, d', Slot(blk, i))
  {
    hide Inv, DoubleChain, Used, Unlink, SlotOk, OnlySlot;
    var blk, buf := d.freeEntry, d.blocks[d.freeEntry];
    DataFacts(d, s, {}, NoHole, blk);
    HeadFacts(d.blocks, s.partial, blk);
    var full := WithEntries(WithPrev(WithNext(buf, 0), 0), Entries(buf) + 1);
    UnlinkFrame(d.blocks, s.partial, d.freeEntry, 0, buf);
    PartialOf(d, s, {}, NoHole);
    UnlinkOnlySlot(d, s, 0, buf, full, i);
    UnlinkChain(d.blocks, s.partial, d.freeEntry, 0, buf);
    RemoveAtMembers(s.partial, 0);
    BodyKeepsRecords(full, buf);
    RoomInBlock(d, s, id, Slot(blk, i));
    var d' := Disk(Unlink(d.blocks, blk, buf)[blk := full], d.freeBlk, UnlinkHead(d.freeEntry, buf));
    DoubleChainFrame(Unlink(d.blocks, blk, buf), d'.blocks, RemoveAt(s.partial, 0), d'.freeEntry);
    ReserveInv(d, d', s, id, Slot(blk, i), RemoveAt(s.partial, 0));
  }

  lemma ReserveFresh(d: Disk, s: Shape, id: nat, blk: nat)
    requires Inv(d, s, {}, NoHole) && id < MAX_ID && id !in s.dir && d.freeEntry == 0
    requires 0 < blk < |d.blocks| && s.role[blk] == Limbo
    ensures var buf := WithEntries(EMPTY_BLOCK, 1);
            var d', s' := Disk(d.blocks[blk := buf], d.freeBlk, blk), AddId(s, id, Slot(blk, 0), [blk]);
            Inv(d', s', {id}, Unlinked(Leaf(id))) && OnlySlot(d, s, d', Slot(blk, 0))
  {
    hide RoleInv, DownInv, UpInv, NonEmptyInv, Used, DataInv, FreeInv;
    var buf := WithEntries(EMPTY_BLOCK, 1);
    RoleLength(s, |d.blocks|);
    var d' := Disk(d.blocks[blk := buf], d.freeBlk, blk);
    assert s.partial == [];
    EntryAdded(EMPTY_BLOCK, 1);
    EmptyRecords();
    LimboUnused(s, blk);
    assert DoubleChain(d'.blocks, [blk], blk);
    ReserveInv(d, d', s, id, Slot(blk, 0), [blk]);
  }

  // ---- how the three cases of free_dqentry release one

  lemma ReleaseLast(d: Disk, s: Shape, id: nat, k: nat)
    requires Inv(d, s, {}, NoHole) && id in s.dir && k < |s.partial| && s.partial[k] == s.dir[id].blk
    requires s.dir[id].blk < |d.blocks| && Entries(d.blocks[s.dir[id].blk]) == 1
    ensures var blk := s.dir[id].blk;
            var buf := WithEntries(d.blocks[blk], 0);
            && Next(buf) < |d.blocks| && Prev(buf) < |d.blocks|
            && Inv(Disk(Unlink(d.blocks, blk, buf), d.freeBlk, UnlinkHead(d.freeEntry, buf)),
                   RemoveId(s, id, RemoveAt(s.partial, k)), {}, Dangling(Leaf(id)))
            && RemoveId(s, id, RemoveAt(s.partial, k)).role[blk] == Limbo
            && OnlySlot(d, s, Disk(Unlink(d.blocks, blk, buf), d.freeBlk, UnlinkHead(d.freeEntry, buf)), s.dir[id])
  {
    hide Inv, DoubleChain, Used, Unlink, OnlySlot, SlotOk;
    IsData(d, s, id);
    var blk := s.dir[id].blk;
    var buf := WithEntries(d.blocks[blk], 0);
    DataFacts(d, s, {}, NoHole, blk);
    PartialOf(d, s, {}, NoHole);
    UnlinkFrame(d.blocks, s.partial, d.freeEntry, k, buf);
    UnlinkOnlySlot(d, s, k, buf, WithPrev(WithNext(buf, 0), 0), s.dir[id].i);
    UnlinkChain(d.blocks, s.partial, d.freeEntry, k, buf);
    RemoveAtMembers(s.partial, k);
    var d' := Disk(Unlink(d.blocks, blk, buf), d.freeBlk, UnlinkHead(d.freeEntry, buf));
    assert d'.blocks == d'.blocks[blk := WithPrev(WithNext(buf, 0), 0)];
    ReleaseInv(d, d', s, id, RemoveAt(s.partial, k));
  }

  /** The block without the record of slot `i`. */
  function Cleared(b: Block, i: nat): Block
    requires i < SLOTS && Entries(b) > 0
  {
    WithRec(WithEntries(b, Entries(b) - 1), i, EMPTY_RECORD)
  }

  lemma ClearedFacts(b: Block, i: nat)
    requires i < SLOTS && Entries(b) > 0
    ensures Entries(Cleared(b, i)) == Entries(b) - 1 && Rec(Cleared(b, i), i) == EMPTY_RECORD
    ensures forall k :: 0 <= k < SLOTS && k != i ==> Rec(Cleared(b, i), k) == Rec(b, k)
    ensures Next(Cleared(b, i)) == Next(b) && Prev(Cleared(b, i)) == Prev(b)
  {
  }

  /** Putting a block at the head of the list of blocks with room. */
  lemma LinkOnlySlot(d: Disk, s: Shape, buf: Block, sl: Slot)
    requires |s.role| == |d.blocks| && PartialInv(d, s) && 0 < sl.blk < |d.blocks| && sl.blk !in s.partial
    requires forall k :: 0 <= k < SLOTS && k != sl.i ==> Rec(buf, k) == Rec(d.blocks[sl.blk], k)
    ensures d.freeEntry < |d.blocks|
    ensures OnlySlot(d, s, Disk(LinkFirst(d.blocks, sl.blk, buf, d.freeEntry), d.freeBlk, sl.blk), sl)
  {
    hide LinkFirst, Used, DoubleChain;
    LinkFirstFrame(d.blocks, s.partial, d.freeEntry, sl.blk, buf);
    BodyKeepsRecords(WithPrev(WithNext(buf, d.freeEntry), 0), buf);
    PartialMembers(d, s);
  }

  lemma ReleaseFromFull(d: Disk, s: Shape, id: nat)
    requires Inv(d, s, {}, NoHole) && id in s.dir && s.dir[id].blk < |d.blocks| && s.dir[id].i < SLOTS
    requires Entries(d.blocks[s.dir[id].blk]) == SLOTS
    ensures d.freeEntry < |d.blocks|
    ensures var sl := s.dir[id];
            var d' := Disk(LinkFirst(d.blocks, sl.blk, Cleared(d.blocks[sl.blk], sl.i), d.freeEntry), d.freeBlk, sl.blk);
            var s' := RemoveId(s, id, [sl.blk] + s.partial);
            Inv(d', s', {}, Dangling(Leaf(id))) && OnlySlot(d, s, d', sl)
  {
    hide Inv, DoubleChain, Used, LinkFirst, Cleared, OnlySlot;
    IsData(d, s, id);
    var sl := s.dir[id];
    var buf := Cleared(d.blocks[sl.blk], sl.i);
    DataFacts(d, s, {}, NoHole, sl.blk);
    ClearedFacts(d.blocks[sl.blk], sl.i);
    LinkFirstFrame(d.blocks, s.partial, d.freeEntry, sl.blk, buf);
    LinkFirstChain(d.blocks, s.partial, d.freeEntry, sl.blk, buf);
    PartialOf(d, s, {}, NoHole);
    LinkOnlySlot(d, s, buf, sl);
    BodyKeepsRecords(WithPrev(WithNext(buf, d.freeEntry), 0), buf);
    var d' := Disk(LinkFirst(d.blocks, sl.blk, buf, d.freeEntry), d.freeBlk, sl.blk);
    ReleaseInv(d, d', s, id, [sl.blk] + s.partial);
  }

  lemma ReleaseFromPartial(d: Disk, s: Shape, id: nat)
    requires Inv(d, s, {}, NoHole) && id in s.dir && s.dir[id].blk < |d.blocks| && s.dir[id].i < SLOTS
    requires 1 < Entries(d.blocks[s.dir[id].blk]) < SLOTS
    ensures var sl := s.dir[id];
            var d', s' := d.(blocks := d.blocks[sl.blk := Cleared(d.blocks[sl.blk], sl.i)]), RemoveId(s, id, s.partial);
            Inv(d', s', {}, Dangling(Leaf(id))) && OnlySlot(d, s, d', sl)
  {
    hide Inv, DoubleChain, Used, Cleared;
    var sl := s.dir[id];
    var d' := d.(blocks := d.blocks[sl.blk := Cleared(d.blocks[sl.blk], sl.i)]);
    IsData(d, s, id);
    DataFacts(d, s, {}, NoHole, sl.blk);
    ClearedFacts(d.blocks[sl.blk], sl.i);
    DoubleChainFrame(d.blocks, d'.blocks, s.partial, d.freeEntry);
    ReleaseInv(d, d', s, id, s.partial);
  }
}
