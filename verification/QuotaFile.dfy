/**
 `fs/dquot.c`, the part that keeps the quota file: blocks are read, changed and written back, and the
 counters of the file header are updated in place. The shape is a ghost that the methods carry along.
 */
module QuotaFile {
  import opened Basics
  import opened QuotaBlocks
  import opened QuotaShape
  import opened QuotaSteps
  import opened QuotaLookup
  import opened QuotaSlots

  /** What a reference on the path to an id says about the place below it. */
  lemma PathRef(blocks: seq<Block>, s: Shape, id: nat, depth: nat)
    requires TreeInv(blocks, s, NoHole) && depth < DEPTH
    ensures Place(id, depth) in s.node ==>
              var r := blocks[s.node[Place(id, depth)]][Index(id, depth)];
              if r == 0 then !Has(s, Place(id, depth + 1))
              else Has(s, Place(id, depth + 1)) && Target(s, Place(id, depth + 1)) == r
    ensures Place(id, depth) !in s.node ==> !Has(s, Place(id, depth + 1))
    ensures Child(Place(id, depth), Index(id, depth)) == Place(id, depth + 1) && Index(id, depth) < WORDS
    ensures Place(id, DEPTH) == Leaf(id)
  {
    hide Prefix, Index;
    PlaceStep(id, depth);
    LastPrefix(id);
    if Place(id, depth) in s.node { assert RefOk(blocks, s, Place(id, depth), Index(id, depth)); }
    if Has(s, Place(id, depth + 1)) {
      assert Linked(blocks, s, Place(id, depth + 1));
      TargetPositive(s, |blocks|, Place(id, depth + 1));
    }
  }

  // ---- a run of changes

  datatype Op = Store(id: nat, r: Record) | Erase(id: nat)

  function ReplayOne(m: map<nat, Record>, op: Op): map<nat, Record> {
    match op
    case Store(id, r) => m[id := r]
    case Erase(id) => m - {id}
  }

  function Replay(m: map<nat, Record>, ops: seq<Op>): map<nat, Record>
    decreases |ops|
  {
    if ops == [] then m else Replay(ReplayOne(m, ops[0]), ops[1..])
  }

  /** Records carry their id and are not all zero; the last id is never erased. */
  predicate Permitted(m: map<nat, Record>, ops: seq<Op>)
    decreases |ops|
  {
    ops == [] ||
    (&& ops[0].id < MAX_ID
     && (match ops[0]
         case Store(id, r) => RecId(r) == id && r != EMPTY_RECORD
         case Erase(id) => m.Keys != {id})
     && Permitted(ReplayOne(m, ops[0]), ops[1..]))
  }

  class QuotaFile {
    var blocks: seq<Block>
    var freeBlk: nat       // dqi_free_blk
    var freeEntry: nat     // dqi_free_entry; dqi_blocks is the number of blocks
    ghost var s: Shape

    ghost function D(): Disk
      reads this
    {
      Disk(blocks, freeBlk, freeEntry)
    }

    /** An empty file: the header block and the empty root. */
    constructor ()
      ensures Consistent(D(), s) && s.dir == map[]
    {
      blocks, freeBlk, freeEntry := [EMPTY_BLOCK, EMPTY_BLOCK], 0, 0;
      s := Shape([Header, Tree(0, 0)], map[Key(0, 0) := ROOT], map[], map[], [], []);
    }

    /** Take a block from the free chain, or add one to the file. */
    method GetFreeDqblk(ghost reserved: set<nat>, ghost hole: Hole) returns (blk: nat)
      requires Inv(D(), s, reserved, hole)
      modifies this
      ensures blk == Taken(old(D())) && old(D()).freeBlk < |old(D()).blocks| && D() == TakeDisk(old(D()))
      ensures (old(s.free) != [] ==> old(s.free)[0] < |old(s.role)|) && s == TakeShape(old(s))
      ensures Inv(D(), s, reserved, hole) && 0 < blk < |blocks| == |s.role| && s.role[blk] == Limbo
      ensures s.dir == old(s.dir) && s.node == old(s.node) && freeEntry == old(freeEntry)
      ensures Keeps(old(D()), old(s), D(), s, DEPTH)
      ensures OneMoreLimbo(old(s), s, blk)
      ensures if old(freeBlk) != 0 then blk == old(freeBlk) && blocks == old(blocks)
              else blk == |old(blocks)| && |blocks| == blk + 1
      ensures FreeFirst(old(D()), D())
    {
      hide DownInv, UpInv, NonEmptyInv, DataInv, PartialInv, Keeps;
      TakeKeeps(D(), s, reserved, hole);
      TakeRole(D(), s);
      TakeInv(D(), s, reserved, hole);
      s := TakeShape(s);
      if freeBlk != 0 {
        blk := freeBlk;
        freeBlk := Next(blocks[blk]);
      } else {
        blk := |blocks|;
        blocks := blocks + [EMPTY_BLOCK];
      }
    }

    /** Put a block at the head of the free chain. */
    method PutFreeDqblk(buf: Block, blk: nat, ghost reserved: set<nat>, ghost hole: Hole)
      requires Inv(D(), s, reserved, hole) && 0 < blk < |blocks| && s.role[blk] == Limbo
      modifies this
      ensures D() == GiveDisk(old(D()), blk, buf) && s == GiveShape(old(s), blk) && Inv(D(), s, reserved, hole)
      ensures freeBlk == blk && |blocks| == |old(blocks)|
      ensures forall b :: 0 <= b < |blocks| && b != blk ==> blocks[b] == old(blocks)[b]
      ensures Next(blocks[blk]) == old(freeBlk) && Prev(blocks[blk]) == 0 && Entries(blocks[blk]) == 0
      ensures forall k :: 3 <= k < WORDS ==> blocks[blk][k] == buf[k]
    {
      GiveInv(D(), s, reserved, hole, blk, buf);
      blocks := blocks[blk := FreeHeader(buf, freeBlk)];
      freeBlk := blk;
      s := GiveShape(s, blk);
    }

    /** Take a block out of the list of blocks with room; `buf` is what is to be written to it. */
    method RemoveFreeDqentry(buf: Block, blk: nat) returns (buf': Block)
      requires blk < |blocks| && Next(buf) < |blocks| && Prev(buf) < |blocks|
      modifies this`blocks, this`freeEntry
      ensures blocks == Unlink(old(blocks), blk, buf) && freeEntry == UnlinkHead(old(freeEntry), buf)
      ensures buf' == WithPrev(WithNext(buf, 0), 0) && |blocks| == |old(blocks)|
    {
      var nextblk, prevblk := Next(buf), Prev(buf);
      if nextblk != 0 {
        blocks := blocks[nextblk := WithPrev(blocks[nextblk], prevblk)];
      }
      if prevblk != 0 {
        blocks := blocks[prevblk := WithNext(blocks[prevblk], nextblk)];
      } else {
        freeEntry := nextblk;
      }
      buf' := WithPrev(WithNext(buf, 0), 0);
      blocks := blocks[blk := buf'];
    }

    /** Put a block at the head of the list of blocks with room. */
    method InsertFreeDqentry(buf: Block, blk: nat)
      requires blk < |blocks| && freeEntry < |blocks|
      modifies this`blocks, this`freeEntry
      ensures blocks == LinkFirst(old(blocks), blk, buf, old(freeEntry)) && freeEntry == blk
      ensures |blocks| == |old(blocks)|
    {
      blocks := blocks[blk := WithPrev(WithNext(buf, freeEntry), 0)];
      if freeEntry != 0 {
        blocks := blocks[freeEntry := WithPrev(blocks[freeEntry], blk)];
      }
      freeEntry := blk;
    }

    /** The search for a free structure in a block. */
    method FirstZero(buf: Block) returns (i: nat)
      ensures i <= SLOTS && (i < SLOTS ==> Rec(buf, i) == EMPTY_RECORD)
      ensures forall m :: 0 <= m < i ==> Rec(buf, m) != EMPTY_RECORD
    {
      i := 0;
      while i < SLOTS && Rec(buf, i) != EMPTY_RECORD
        invariant i <= SLOTS && forall m :: 0 <= m < i ==> Rec(buf, m) != EMPTY_RECORD
      {
        i := i + 1;
      }
    }

    /** Find space for an id in a block with room. */
    method ReserveListed(id: nat) returns (blk: nat, i: nat)
      requires Inv(D(), s, {}, NoHole) && id < MAX_ID && id !in s.dir && freeEntry != 0
      modifies this
      ensures blk == old(freeEntry) && freeBlk == old(freeBlk) && |blocks| == |old(blocks)|
      ensures Inv(D(), s, {id}, Unlinked(Leaf(id))) && s.node == old(s.node)
      ensures s.dir == old(s.dir)[id := Slot(blk, i)]
      ensures Keeps(old(D()), old(s), D(), s, DEPTH) && SameLimbo(old(s), s)
    {
      hide Inv, Unlink, UnlinkHead, RemoveAt, Keeps, OnlySlot;
      ghost var d0, s0 := D(), s;
      FreeEntryRoom(d0, s0);
      blk := freeEntry;
      var buf := blocks[blk];
      i := FirstZero(buf);
      FreshSlot(d0, s0, Slot(blk, i));
      if Entries(buf) + 1 >= SLOTS {
        ReserveFills(d0, s0, id, i);
        buf := RemoveFreeDqentry(buf, blk);
        s := AddId(s, id, Slot(blk, i), RemoveAt(s.partial, 0));
      } else {
        ReserveFits(d0, s0, id, i);
        s := AddId(s, id, Slot(blk, i), s.partial);
      }
      blocks := blocks[blk := WithEntries(buf, Entries(buf) + 1)];
      OnlySlotKeeps(d0, s0, D(), s, Slot(blk, i));
    }

    /** Find space for an id in a new block. */
    method ReserveNew(id: nat) returns (blk: nat, i: nat)
      requires Inv(D(), s, {}, NoHole) && id < MAX_ID && id !in s.dir && freeEntry == 0
      modifies this
      ensures FreeFirst(old(D()), D())
      ensures Inv(D(), s, {id}, Unlinked(Leaf(id))) && s.node == old(s.node)
      ensures s.dir == old(s.dir)[id := Slot(blk, i)]
      ensures Keeps(old(D()), old(s), D(), s, DEPTH) && SameLimbo(old(s), s)
    {
      hide Inv, Keeps, OnlySlot, TakeDisk, TakeShape, Zeros, Next, Prev;
      ghost var d0, s0 := D(), s;
      blk := GetFreeDqblk({}, NoHole);
      ghost var d1, s1 := D(), s;
      freeEntry := blk;
      var buf := EMPTY_BLOCK;
      EmptyRecords();
      i := FirstZero(buf);
      assert EMPTY_BLOCK[2] == 0 && Rec(EMPTY_BLOCK, 0) == EMPTY_RECORD;
      ReserveFresh(d1, s1, id, blk);
      s := AddId(s, id, Slot(blk, i), [blk]);
      blocks := blocks[blk := WithEntries(buf, Entries(buf) + 1)];
      LimboEmpty(d1, s1, blk);
      OnlySlotKeeps(d1, s1, D(), s, Slot(blk, i));
      KeepsTwice(d0, s0, d1, s1, D(), s, DEPTH, DEPTH);
    }

    /** Find space for an id: a slot of a block with room, else of a new block. */
    method FindFreeDqentry(id: nat) returns (blk: nat, i: nat)
      requires Inv(D(), s, {}, NoHole) && id < MAX_ID && id !in s.dir
      modifies this
      ensures old(freeEntry) != 0 ==> blk == old(freeEntry) && freeBlk == old(freeBlk) && |blocks| == |old(blocks)|
      ensures FreeFirst(old(D()), D())
      ensures Inv(D(), s, {id}, Unlinked(Leaf(id))) && s.node == old(s.node)
      ensures s.dir == old(s.dir)[id := Slot(blk, i)]
      ensures Keeps(old(D()), old(s), D(), s, DEPTH) && SameLimbo(old(s), s)
    {
      hide Inv, Keeps, SameLimbo;
      if freeEntry != 0 { blk, i := ReserveListed(id); } else { blk, i := ReserveNew(id); }
    }

    /**
     `do_insert_tree`: make the path to `id` from depth `depth` down, and a slot for it. `treeblk` is
     the block of that place, or 0 if there is none. Fails, changing nothing, if the id is present.
     */
    method DoInsertTree(id: nat, treeblk: nat, depth: nat) returns (ok: bool, blk: nat, dqOff: nat)
      requires Inv(D(), s, {}, NoHole) && id < MAX_ID && depth < DEPTH && (depth == 0 ==> treeblk != 0)
      requires treeblk == BlockOf(s, Place(id, depth))
      modifies this
      ensures ok <==> id !in old(s.dir)
      ensures !ok ==> D() == old(D()) && s == old(s)
      ensures ok ==> id in s.dir && s.dir == old(s.dir)[id := s.dir[id]]
      ensures ok ==> dqOff == Offset(s.dir[id].blk, s.dir[id].i)
      ensures ok ==> Inv(D(), s, {id}, if treeblk == 0 then Unlinked(Place(id, depth)) else NoHole)
      ensures ok ==> Place(id, depth) in s.node && s.node[Place(id, depth)] == blk && (treeblk != 0 ==> blk == treeblk)
      ensures ok ==> Keeps(old(D()), old(s), D(), s, depth) && SameLimbo(old(s), s) && FreeFirst(old(D()), D())
      decreases DEPTH - depth
    {
      hide Inv, Keeps, SameLimbo, OneMoreLimbo, Place, Index, TakeDisk, TakeShape, Offset;
      LeafPlace(id);
      EmptyRecords();
      ghost var d0, s0 := D(), s;
      var newact := treeblk == 0;
      blk := treeblk;
      var buf := EMPTY_BLOCK;
      if newact {
        blk := GetFreeDqblk({}, NoHole);
      } else {
        PathRefs(d0, s0, id, depth);
        buf := blocks[treeblk];
      }
      ghost var d1, s1 := D(), s;
      PathRefs(d1, s1, id, depth);
      var newblk := buf[Index(id, depth)];
      var newson := newblk == 0;
      assert EMPTY_BLOCK[Index(id, depth)] == 0;
      if depth == DEPTH - 1 {
        if !newson { return false, blk, 0; }
        var i;
        newblk, i := FindFreeDqentry(id);
        ok, dqOff := true, Offset(newblk, i);
      } else {
        ok, newblk, dqOff := DoInsertTree(id, newblk, depth + 1);
        if !ok { return; }
      }
      assert newblk == Target(s, Place(id, depth + 1));
      if newact {
        StillLimbo(s1, D(), s, id, depth, blk);
        ghost var d2 := D().(blocks := blocks[blk := buf[Index(id, depth) := newblk]]);
        ghost var s2 := AddNode(s, Place(id, depth), blk);
        LinkNewNode(d1, s1, D(), s, id, depth, blk, d2, s2);
        KeepsTwice(d0, s0, d1, s1, d2, s2, depth, DEPTH);
        NewLimbo(s0, s1, s, Place(id, depth), blk);
        s := AddNode(s, Place(id, depth), blk);
      } else if newson {
        LinkChild(d0, s0, D(), s, id, depth);
      } else {
        ChildKept(d0, s0, D(), s, id, depth);
      }
      if newson {
        blocks := blocks[blk := buf[Index(id, depth) := newblk]];
      }
    }

    /** Free the entry of an id in its data block; the block itself too when it was the last entry. */
    method FreeDqentry(id: nat, dqOff: nat, blk: nat)
      requires Inv(D(), s, {}, NoHole) && id in s.dir && blk == s.dir[id].blk && dqOff == Offset(blk, s.dir[id].i)
      modifies this
      ensures Inv(D(), s, {}, Dangling(Leaf(id))) && s.node == old(s.node) && s.dir == old(s.dir) - {id}
      ensures Keeps(old(D()), old(s), D(), s, DEPTH) && SameLimbo(old(s), s)
    {
      hide Inv, Keeps, OnlySlot, Unlink, UnlinkHead, LinkFirst, RemoveAt, Used, Offset;
      ghost var d0, s0 := D(), s;
      var k := EntryFacts(d0, s0, id);
      var buf := blocks[blk];
      var i := (dqOff % 1024 - 16) / 48;
      if dqOff / 1024 != blk { return; }
      if Entries(buf) == 1 {
        ReleaseLast(d0, s0, id, k);
        buf := RemoveFreeDqentry(WithEntries(buf, 0), blk);
        s := RemoveId(s, id, RemoveAt(s.partial, k));
        OnlySlotKeeps(d0, s0, D(), s, Slot(blk, i));
        ghost var d1, s1 := D(), s;
        PutFreeDqblk(buf, blk, {}, Dangling(Leaf(id)));
        KeepsOthers(d1, s1, {}, Dangling(Leaf(id)), D(), s);
        KeepsTwice(d0, s0, d1, s1, D(), s, DEPTH, DEPTH);
      } else if Entries(buf) == SLOTS {
        ReleaseFromFull(d0, s0, id);
        InsertFreeDqentry(Cleared(buf, i), blk);
        s := RemoveId(s, id, [blk] + s.partial);
        OnlySlotKeeps(d0, s0, D(), s, Slot(blk, i));
      } else {
        ReleaseFromPartial(d0, s0, id);
        blocks := blocks[blk := Cleared(buf, i)];
        s := RemoveId(s, id, s.partial);
        OnlySlotKeeps(d0, s0, D(), s, Slot(blk, i));
      }
    }

    /**
     `remove_tree`: remove the reference to `id` from the node at `blk` down, freeing every node that
     becomes empty. Returns 0 if `blk` itself has been freed.
     */
    method RemoveTree(id: nat, dqOff: nat, blk: nat, depth: nat) returns (blk': nat)
      requires Inv(D(), s, {}, NoHole) && id in s.dir && dqOff == Offset(s.dir[id].blk, s.dir[id].i)
      requires depth < DEPTH && Place(id, depth) in s.node && blk == s.node[Place(id, depth)]
      modifies this
      ensures s.dir == old(s.dir) - {id}
      ensures blk' == 0 ==> Place(id, depth) !in s.node && Inv(D(), s, {}, Dangling(Place(id, depth))) && freeBlk == blk
      ensures blk' != 0 ==> blk' == blk && Place(id, depth) in s.node && s.node[Place(id, depth)] == blk
                            && Inv(D(), s, {}, NoHole) && blk < |blocks| && blocks[blk] != EMPTY_BLOCK
      ensures Keeps(old(D()), old(s), D(), s, depth) && SameLimbo(old(s), s)
      decreases DEPTH - depth
    {
      hide Inv, Keeps, SameLimbo, Place, Index, Offset;
      LeafPlace(id);
      ghost var d0, s0 := D(), s;
      PathRefs(d0, s0, id, depth);
      PathFound(d0, s0, id, depth);
      blk' := blk;
      var buf := blocks[blk];
      var newblk := buf[Index(id, depth)];
      if depth == DEPTH - 1 {
        FreeDqentry(id, dqOff, newblk);
        newblk := 0;
      } else {
        newblk := RemoveTree(id, dqOff, newblk, depth + 1);
      }
      ghost var d1, s1 := D(), s;
      ChildKept(d0, s0, d1, s1, id, depth);
      if newblk == 0 {
        NodeStill(d0, s0, d1, s1, id, depth);
        buf := buf[Index(id, depth) := 0];
        if buf == EMPTY_BLOCK {
          DropLastRef(d1, s1, id, depth);
          s := DropNode(s, Place(id, depth));
          PutFreeDqblk(buf, blk, {}, Dangling(Place(id, depth)));
          FreeNodeKeeps(d1, s1, D(), s, id, depth, buf);
          KeepsTwice(d0, s0, d1, s1, D(), s, depth, depth);
          FreeNodeLimbo(s0, s1, Place(id, depth));
          blk' := 0;
        } else {
          ClearRef(d1, s1, id, depth);
          blocks := blocks[blk := buf];
          KeepsTwice(d0, s0, d1, s1, D(), s, depth, depth);
        }
      } else {
        PathRefs(d1, s1, id, depth);
        NonEmpty(d1, s1, id, depth);
      }
    }

    /** `find_block_dqentry`: scan the records of one data block. */
    method FindBlockDqentry(id: nat, blk: nat) returns (r: Found)
      ensures r == FindBlock(blocks, blk, id)
      ensures blk < |blocks| ==>
                match r
                case At(off) => RecordOf(blocks, blk, id, off) && forall o :: 0 <= o < off ==> !RecordOf(blocks, blk, id, o)
                case Broken => forall o :: 0 <= o ==> !RecordOf(blocks, blk, id, o)
                case Absent => false
    {
      hide RecordOf, Offset;
      if blk < |blocks| { FindBlockMeans(blocks, blk, id); }
      var buf := if blk < |blocks| then blocks[blk] else EMPTY_BLOCK;
      var i := 0;
      while i < SLOTS && !Matches(Rec(buf, i), id)
        invariant i <= SLOTS && FirstMatch(buf, id, 0) == FirstMatch(buf, id, i)
      {
        i := i + 1;
      }
      r := if i == SLOTS then Broken else At(Offset(blk, i));
    }

    /** `find_tree_dqentry`: follow the references from depth `depth` down. */
    method FindTreeDqentry(id: nat, blk: nat, depth: nat) returns (r: Found)
      requires depth < DEPTH
      ensures r == FindTree(blocks, blk, depth, id)
      decreases DEPTH - depth
    {
      var buf := if blk < |blocks| then blocks[blk] else EMPTY_BLOCK;
      var next := buf[Index(id, depth)];
      if next == 0 {
        r := Absent;
      } else if depth < DEPTH - 1 {
        r := FindTreeDqentry(id, next, depth + 1);
      } else {
        r := FindBlockDqentry(id, next);
      }
    }

    /** What the file stores for each id. */
    ghost function Contents(): map<nat, Record>
      reads this
    {
      map id | id in s.dir :: RecordAt(blocks, s.dir[id])
    }

    /** The offset kept with an id: that of its record, or 0 when it has none. */
    ghost predicate Cached(id: nat, dqOff: nat)
      reads this
    {
      dqOff == if id in s.dir then Offset(s.dir[id].blk, s.dir[id].i) else 0
    }

    /** `read_dquot`: the offset of an id, and its record. */
    method ReadDquot(id: nat) returns (dqOff: nat, r: Record)
      requires Consistent(D(), s) && id < MAX_ID
      ensures Cached(id, dqOff) && r == if id in s.dir then Contents()[id] else EMPTY_RECORD
      ensures dqOff != 0 ==> StoredAt(blocks, dqOff, r)
    {
      hide Inv, Offset, FindTree, StoredAt, Rec;
      LookupCorrect(D(), s, {}, id);
      var found := FindTreeDqentry(id, ROOT, 0);
      dqOff, r := 0, EMPTY_RECORD;
      if found.At? {
        var _ := EntryFacts(D(), s, id);
        dqOff := found.offset;
        r := Rec(blocks[dqOff / 1024], (dqOff % 1024 - 16) / 48);
        RecIsWords(blocks, s.dir[id].blk, s.dir[id].i);
      }
    }

    /** The write of a record to its place in the file. */
    method WriteRecord(id: nat, off: nat, r: Record, ghost reserved: set<nat>)
      requires Inv(D(), s, reserved, NoHole) && Rooted(s) && id in s.dir && id < MAX_ID && RecId(r) == id
      requires reserved <= {id} && off == Offset(s.dir[id].blk, s.dir[id].i)
      modifies this`blocks
      ensures Inv(D(), s, if r == EMPTY_RECORD then {id} else {}, NoHole)
      ensures forall id' :: id' in s.dir ==>
                RecordAt(blocks, s.dir[id']) == if id' == id then r else RecordAt(old(blocks), s.dir[id'])
      ensures Lookup(blocks, id) == if r != EMPTY_RECORD then At(off) else Broken
      ensures WrittenAt(old(blocks), blocks, off, r)
    {
      hide Inv, Offset, FindTree, Lookup, RecordAt, WithRec, WrittenAt;
      ghost var d1 := D();
      SlotFacts(d1, s, reserved, id);
      var blk, i := off / 1024, (off % 1024 - 16) / 48;
      WithRecWords(blocks, blk, i, r);
      blocks := blocks[blk := WithRec(blocks[blk], i, r)];
      WriteInv(d1, s, reserved, id, r);
      LookupCorrect(D(), s, if r == EMPTY_RECORD then {id} else {}, id);
      WriteRecords(d1, s, reserved, id, r);
    }

    /**
     `write_dquot`: give the id a slot if it has none yet, then write its record. The id is found again
     exactly if the record is not all zero: a zero record marks a slot that is not taken. Fails,
     changing nothing, if the id is present but its offset is not known.
     */
    method WriteDquot(id: nat, dqOff: nat, r: Record) returns (ok: bool, off: nat)
      requires Consistent(D(), s) && id < MAX_ID && RecId(r) == id && (dqOff != 0 ==> Cached(id, dqOff))
      modifies this
      ensures ok <==> dqOff != 0 || id !in old(s.dir)
      ensures !ok ==> D() == old(D()) && s == old(s)
      ensures ok ==> id in s.dir && off == Offset(s.dir[id].blk, s.dir[id].i) && (dqOff != 0 ==> off == dqOff)
      ensures forall id' :: id' in old(s.dir) ==> id' in s.dir && s.dir[id'] == old(s.dir)[id']
      ensures ok ==> Lookup(blocks, id) == if r != EMPTY_RECORD then At(off) else Broken
      ensures ok ==> Contents() == old(Contents())[id := r] && (r != EMPTY_RECORD ==> Consistent(D(), s))
      ensures ok ==> StoredAt(blocks, off, r)
      ensures dqOff != 0 ==> WrittenAt(old(blocks), blocks, off, r)
      ensures FreeFirst(old(D()), D())
    {
      hide Inv, Keeps, Offset, Lookup, RecordAt, Place, StoredAt;
      ghost var d0, s0 := D(), s;
      ghost var reserved: set<nat> := {};
      ok, off := true, dqOff;
      RootPlace(id);
      if dqOff == 0 {
        var root;
        ok, root, off := DoInsertTree(id, ROOT, 0);
        if !ok { return; }
        KeepsRecords(d0, s0, D(), s);
        reserved := {id};
      }
      WriteRecord(id, off, r, reserved);
      assert Contents() == old(Contents())[id := r];
    }

    /**
     `delete_dquot`: remove the id and its record. The file stays consistent exactly if another id is
     left; with the last id the root goes too, and becomes the first free block.
     */
    method DeleteDquot(id: nat, dqOff: nat)
      requires Consistent(D(), s) && id < MAX_ID && (dqOff != 0 ==> Cached(id, dqOff))
      modifies this
      ensures dqOff == 0 ==> D() == old(D()) && s == old(s)
      ensures dqOff != 0 ==> id in old(s.dir) && s.dir == old(s.dir) - {id} && Contents() == old(Contents()) - {id}
      ensures dqOff != 0 ==> (Consistent(D(), s) <==> old(s.dir).Keys != {id})
      ensures dqOff != 0 && old(s.dir).Keys == {id} ==> freeBlk == ROOT && forall s' :: !Consistent(D(), s')
    {
      hide Inv, Offset, RecordAt;
      if dqOff == 0 { return; }
      RootPlace(id);
      ghost var d0, s0 := D(), s;
      var root := RemoveTree(id, dqOff, ROOT, 0);
      assert Contents() == old(Contents()) - {id};
      if root == 0 {
        NoRootNoId(D(), s, id);
        RootIsNotFree(D());
      } else {
        RootHasId(D(), s);
      }
    }

    /**
     A whole run: each operation looks the id up, then writes or deletes its record. What the file
     stores is what a plain map would hold, whatever blocks were split off, freed and reused.
     */
    method Run(ops: seq<Op>)
      requires Consistent(D(), s) && Permitted(Contents(), ops)
      modifies this
      ensures Consistent(D(), s) && Contents() == Replay(old(Contents()), ops)
      ensures forall id :: id in old(s.dir) && Erase(id) !in ops ==> id in s.dir && s.dir[id] == old(s.dir)[id]
    {
      hide Inv, RecordAt;
      var n := 0;
      while n < |ops|
        invariant 0 <= n <= |ops| && Consistent(D(), s)
        invariant forall id :: id in old(s.dir) && Erase(id) !in ops ==> id in s.dir && s.dir[id] == old(s.dir)[id]
        invariant Permitted(Contents(), ops[n..]) && Replay(Contents(), ops[n..]) == Replay(old(Contents()), ops)
      {
        var op := ops[n];
        assert ops[n..][0] == op && ops[n..][1..] == ops[n + 1..];
        ghost var m := Contents();
        assert m.Keys == s.dir.Keys;
        var dqOff, _ := ReadDquot(op.id);
        OffsetPositive(D(), s, op.id);
        match op {
          case Store(id, r) =>
            var _, _ := WriteDquot(id, dqOff, r);
          case Erase(id) =>
            DeleteDquot(id, dqOff);
        }
        assert Contents() == ReplayOne(m, op);
        n := n + 1;
      }
    }
  }

  lemma RootPlace(id: nat)
    requires id < MAX_ID
    ensures Place(id, 0) == Key(0, 0)
  {
  }

  lemma KeepsRecords(d: Disk, s: Shape, d': Disk, s': Shape)
    requires Keeps(d, s, d', s', 0)
    ensures forall id :: id in s.dir && id in s'.dir ==> s'.dir[id] == s.dir[id]
    ensures forall id :: id in s.dir && id in s'.dir ==>
              RecordAt(d'.blocks, s.dir[id]) == RecordAt(d.blocks, s.dir[id])
  {
  }

  lemma SlotFacts(d: Disk, s: Shape, reserved: set<nat>, id: nat)
    requires Inv(d, s, reserved, NoHole) && id in s.dir
    ensures var sl := s.dir[id];
            && 0 < sl.blk < |d.blocks| && sl.i < SLOTS
            && Offset(sl.blk, sl.i) / 1024 == sl.blk && (Offset(sl.blk, sl.i) % 1024 - 16) / 48 == sl.i
  {
    hide DownInv, UpInv, NonEmptyInv, DataInv, FreeInv, PartialInv;
    OffsetParts(s.dir[id].blk, s.dir[id].i);
  }

  /** Writing the record of one id changes no other record. */
  lemma WriteRecords(d: Disk, s: Shape, reserved: set<nat>, id: nat, r: Record)
    requires Inv(d, s, reserved, NoHole) && id in s.dir && s.dir[id].blk < |d.blocks| && s.dir[id].i < SLOTS
    ensures var sl := s.dir[id];
            var blocks' := d.blocks[sl.blk := WithRec(d.blocks[sl.blk], sl.i, r)];
            forall id' :: id' in s.dir ==>
              RecordAt(blocks', s.dir[id']) == if id' == id then r else RecordAt(d.blocks, s.dir[id'])
  {
    hide DownInv, UpInv, NonEmptyInv, DataInv, FreeInv, PartialInv;
    WithRecGet(d.blocks[s.dir[id].blk], s.dir[id].i, r);
  }

  /** A node above an existing one is not empty. */
  lemma NonEmpty(d: Disk, s: Shape, id: nat, depth: nat)
    requires Inv(d, s, {}, NoHole) && depth < DEPTH - 1 && Place(id, depth) in s.node && Place(id, depth + 1) in s.node
    ensures s.node[Place(id, depth)] < |d.blocks| && d.blocks[s.node[Place(id, depth)]] != EMPTY_BLOCK
  {
  }

  /** Below a root that is not empty there is an id. */
  lemma RootHasId(d: Disk, s: Shape)
    requires Inv(d, s, {}, NoHole) && Rooted(s) && ROOT < |d.blocks| && d.blocks[ROOT] != EMPTY_BLOCK
    ensures s.dir.Keys != {}
  {
    hide DataInv, FreeInv, PartialInv, DownInv, UpInv, NonEmptyInv;
    var j := NonZeroWord(d.blocks[ROOT]);
    var id := SomeId(d.blocks, s, Key(0, 0), j);
  }

  /** A file whose first free block is the root stands for nothing. */
  lemma RootIsNotFree(d: Disk)
    requires d.freeBlk == ROOT
    ensures forall s :: !Consistent(d, s)
  {
  }

  /** If the root is gone, no id is left. */
  lemma NoRootNoId(d: Disk, s: Shape, id: nat)
    requires Inv(d, s, {}, Dangling(Key(0, 0))) && Key(0, 0) !in s.node
    ensures s.dir.Keys == {} && !Rooted(s)
  {
    hide DownInv, UpInv, NonEmptyInv, DataInv, FreeInv, PartialInv;
    forall id' | id' in s.dir ensures false {
      PathUp(d.blocks, s, Dangling(Key(0, 0)), id', 0);
      RootPlace(id');
    }
  }

  /** Where the entry of an id is. */
  lemma EntryFacts(d: Disk, s: Shape, id: nat) returns (k: nat)
    requires Inv(d, s, {}, NoHole) && id in s.dir
    ensures var sl := s.dir[id];
            && 0 < sl.blk < |d.blocks| == |s.role| && sl.i < SLOTS && s.role[sl.blk] == Data
            && Offset(sl.blk, sl.i) / 1024 == sl.blk && (Offset(sl.blk, sl.i) % 1024 - 16) / 48 == sl.i
            && 1 <= Entries(d.blocks[sl.blk]) <= SLOTS && Entries(d.blocks[sl.blk]) == Used(s.owner, sl.blk, SLOTS)
            && (Entries(d.blocks[sl.blk]) == 1 ==> k < |s.partial| && s.partial[k] == sl.blk)
            && (forall id' :: id' in s.dir && id' != id ==> s.dir[id'] != sl)
  {
    hide DownInv, UpInv, NonEmptyInv, FreeInv;
    var sl := s.dir[id];
    assert DataBlock(s.owner, sl.blk, d.blocks[sl.blk], {});
    UsedBounds(s.owner, sl.blk, SLOTS);
    OffsetParts(sl.blk, sl.i);
    k := 0;
    if Entries(d.blocks[sl.blk]) == 1 {
      assert sl.blk in s.partial;
      k :| 0 <= k < |s.partial| && s.partial[k] == sl.blk;
    }
  }

  /** The path to an id that is present goes on. */
  lemma PathFound(d: Disk, s: Shape, id: nat, depth: nat)
    requires Inv(d, s, {}, NoHole) && depth < DEPTH && id in s.dir && Place(id, depth) in s.node
    ensures s.node[Place(id, depth)] < |d.blocks| && Index(id, depth) < WORDS
    ensures depth < DEPTH - 1 ==> Place(id, depth + 1) in s.node
    ensures depth == DEPTH - 1 ==> d.blocks[s.node[Place(id, depth)]][Index(id, depth)] == s.dir[id].blk
  {
    hide DataInv, FreeInv, PartialInv, Prefix, Index, DownInv, UpInv, NonEmptyInv;
    PathUp(d.blocks, s, NoHole, id, depth + 1);
    PathRef(d.blocks, s, id, depth);
  }

  lemma NodeStill(d0: Disk, s0: Shape, d: Disk, s: Shape, id: nat, depth: nat)
    requires depth < DEPTH && Place(id, depth) in s0.node && Keeps(d0, s0, d, s, depth + 1)
    requires s0.node[Place(id, depth)] < |d0.blocks|
    ensures s0.node[Place(id, depth)] < |d.blocks|
    ensures d.blocks[s0.node[Place(id, depth)]] == d0.blocks[s0.node[Place(id, depth)]]
  {
  }

  lemma DropLastRef(d: Disk, s: Shape, id: nat, depth: nat)
    requires depth < DEPTH && Inv(d, s, {}, Dangling(Place(id, depth + 1))) && Place(id, depth) in s.node
    requires Index(id, depth) < WORDS
    requires BlockAt(d.blocks, s.node[Place(id, depth)])[Index(id, depth) := 0] == EMPTY_BLOCK
    ensures 0 < s.node[Place(id, depth)] < |s.role| == |d.blocks| && s.role[s.node[Place(id, depth)]] != Limbo
    ensures var s' := DropNode(s, Place(id, depth));
            Inv(d, s', {}, Dangling(Place(id, depth))) && s'.role[s.node[Place(id, depth)]] == Limbo
  {
    hide DataInv, FreeInv, PartialInv, Prefix, Index, DownInv, UpInv, NonEmptyInv;
    PlaceStep(id, depth);
    DropNodeInv(d, s, {}, Place(id, depth), Index(id, depth));
  }

  lemma FreeNodeKeeps(d: Disk, s: Shape, d': Disk, s': Shape, id: nat, depth: nat, buf: Block)
    requires depth < DEPTH && Inv(d, s, {}, Dangling(Place(id, depth + 1))) && Place(id, depth) in s.node
    requires s.node[Place(id, depth)] < |s.role| == |d.blocks|
    requires var blk := s.node[Place(id, depth)];
             d' == GiveDisk(d, blk, buf) && s' == GiveShape(DropNode(s, Place(id, depth)), blk)
    ensures Keeps(d, s, d', s', depth)
  {
    hide DataInv, FreeInv, PartialInv, Prefix, Index, DownInv, UpInv, NonEmptyInv;
    NodeWriteKeeps(d, s, {}, Dangling(Place(id, depth + 1)), d', s', Place(id, depth));
  }

  lemma FreeNodeLimbo(s0: Shape, s: Shape, k: Key)
    requires SameLimbo(s0, s) && k in s.node && s.node[k] < |s.role| && s.role[s.node[k]] != Limbo
    ensures SameLimbo(s0, GiveShape(DropNode(s, k), s.node[k]))
  {
  }

  lemma ClearRef(d: Disk, s: Shape, id: nat, depth: nat)
    requires depth < DEPTH && Inv(d, s, {}, Dangling(Place(id, depth + 1))) && Place(id, depth) in s.node
    requires Index(id, depth) < WORDS
    requires BlockAt(d.blocks, s.node[Place(id, depth)])[Index(id, depth) := 0] != EMPTY_BLOCK
    ensures 0 < s.node[Place(id, depth)] < |s.role| == |d.blocks|
    ensures var blk := s.node[Place(id, depth)];
            var d' := d.(blocks := d.blocks[blk := d.blocks[blk][Index(id, depth) := 0]]);
            Inv(d', s, {}, NoHole) && Keeps(d, s, d', s, depth)
  {
    hide DataInv, FreeInv, PartialInv, Prefix, Index, DownInv, UpInv, NonEmptyInv;
    PlaceStep(id, depth);
    UnlinkRefInv(d, s, {}, Place(id, depth), Index(id, depth));
    var blk := s.node[Place(id, depth)];
    NodeWriteKeeps(d, s, {}, Dangling(Place(id, depth + 1)),
                   d.(blocks := d.blocks[blk := d.blocks[blk][Index(id, depth) := 0]]), s, Place(id, depth));
  }

  lemma ChildKept(d0: Disk, s0: Shape, d: Disk, s: Shape, id: nat, depth: nat)
    requires depth < DEPTH && Place(id, depth) in s0.node && Keeps(d0, s0, d, s, depth + 1)
    ensures Place(id, depth) in s.node && s.node[Place(id, depth)] == s0.node[Place(id, depth)]
    ensures Keeps(d0, s0, d, s, depth)
  {
  }

  /** The block of a tree node, 0 if there is no such node. */
  function BlockOf(s: Shape, k: Key): nat { if k in s.node then s.node[k] else 0 }

  lemma LeafPlace(id: nat)
    ensures Place(id, DEPTH) == Leaf(id)
  {
  }

  lemma PathRefs(d: Disk, s: Shape, id: nat, depth: nat)
    requires Inv(d, s, {}, NoHole) && depth < DEPTH
    ensures |s.role| == |d.blocks| && BlockOf(s, Place(id, depth)) < |d.blocks| && Index(id, depth) < WORDS
    ensures Place(id, depth) in s.node ==> s.node[Place(id, depth)] > 0
    ensures var r := if Place(id, depth) in s.node then d.blocks[s.node[Place(id, depth)]][Index(id, depth)] else 0;
            && (depth < DEPTH - 1 ==> r == BlockOf(s, Place(id, depth + 1)))
            && (depth == DEPTH - 1 ==> (r == 0 <==> id !in s.dir))
    ensures Place(id, depth) !in s.node ==> id !in s.dir
  {
    hide DataInv, FreeInv, PartialInv, Prefix, Index, DownInv, UpInv, NonEmptyInv;
    PathRef(d.blocks, s, id, depth);
    if id in s.dir { PathUp(d.blocks, s, NoHole, id, depth); }
  }

  /** Below an existing node that had no reference, the new place is linked. */
  lemma LinkChild(d0: Disk, s0: Shape, d: Disk, s: Shape, id: nat, depth: nat)
    requires Inv(d0, s0, {}, NoHole) && depth < DEPTH && Place(id, depth) in s0.node
    requires Index(id, depth) < WORDS && BlockAt(d0.blocks, s0.node[Place(id, depth)])[Index(id, depth)] == 0
    requires Inv(d, s, {id}, Unlinked(Place(id, depth + 1))) && Keeps(d0, s0, d, s, depth + 1)
    requires forall id :: id in s0.dir ==> id in s.dir
    ensures Place(id, depth) in s.node && Has(s, Place(id, depth + 1))
    ensures var blk := s.node[Place(id, depth)];
            && blk == s0.node[Place(id, depth)] < |d0.blocks| <= |d.blocks| && d.blocks[blk] == d0.blocks[blk]
            && var d' := d.(blocks := d.blocks[blk := d.blocks[blk][Index(id, depth) := Target(s, Place(id, depth + 1))]]);
               Inv(d', s, {id}, NoHole) && Keeps(d0, s0, d', s, depth)
  {
    hide DataInv, FreeInv, PartialInv, Prefix, Index, DownInv, UpInv, NonEmptyInv;
    PlaceStep(id, depth);
    LinkInv(d, s, {id}, Place(id, depth), Index(id, depth));
    var blk := s.node[Place(id, depth)];
    var d' := d.(blocks := d.blocks[blk := d.blocks[blk][Index(id, depth) := Target(s, Place(id, depth + 1))]]);
    NodeWriteKeeps(d, s, {id}, Unlinked(Place(id, depth + 1)), d', s, Place(id, depth));
    KeepsTwice(d0, s0, d, s, d', s, depth, depth + 1);
  }

  /** A change to the block of one node keeps everything above it. */
  lemma NodeWriteKeeps(d: Disk, s: Shape, reserved: set<nat>, hole: Hole, d': Disk, s': Shape, k: Key)
    requires Inv(d, s, reserved, hole) && k in s.node && s'.dir == s.dir && |d'.blocks| == |d.blocks|
    requires forall k2: Key :: k2 != k ==> (k2 in s.node <==> k2 in s'.node) && (k2 in s.node ==> s'.node[k2] == s.node[k2])
    requires forall b :: 0 <= b < |d.blocks| && b != s.node[k] ==> d'.blocks[b] == d.blocks[b]
    ensures Keeps(d, s, d', s', k.depth)
  {
    hide DataInv, FreeInv, PartialInv, DownInv, UpInv, NonEmptyInv;
  }

  lemma StillLimbo(s1: Shape, d: Disk, s: Shape, id: nat, depth: nat, blk: nat)
    requires depth < DEPTH && Inv(d, s, {id}, Unlinked(Place(id, depth + 1)))
    requires blk < |s1.role| && s1.role[blk] == Limbo && SameLimbo(s1, s)
    ensures blk < |s.role| == |d.blocks| && s.role[blk] == Limbo
  {
  }

  /** A new block becomes the node above the new place. */
  lemma LinkNewNode(d1: Disk, s1: Shape, d: Disk, s: Shape, id: nat, depth: nat, blk: nat, d': Disk, s': Shape)
    requires 0 < depth < DEPTH && Place(id, depth) !in s1.node && Index(id, depth) < WORDS
    requires Has(s, Place(id, depth + 1)) && 0 < blk < |s.role| == |d.blocks| && s.role[blk] == Limbo
    requires s' == AddNode(s, Place(id, depth), blk)
    requires d' == d.(blocks := d.blocks[blk := EMPTY_BLOCK[Index(id, depth) := Target(s, Place(id, depth + 1))]])
    requires Inv(d, s, {id}, Unlinked(Place(id, depth + 1))) && Keeps(d1, s1, d, s, depth + 1)
    requires forall id :: id in s1.dir ==> id in s.dir
    ensures Inv(d', s', {id}, Unlinked(Place(id, depth))) && Keeps(d1, s1, d', s', depth)
  {
    hide Inv, Prefix, Index;
    PlaceStep(id, depth);
    NewNodeInv(d, s, {id}, Place(id, depth), Index(id, depth), blk);
    WriteNew(d, s, {id}, Unlinked(Place(id, depth + 1)), d', s', Place(id, depth), blk);
    KeepsTwice(d1, s1, d, s, d', s', depth, depth + 1);
  }

  /** `blk`, free or new, has been taken; no other block has changed its role. */
  predicate OneMoreLimbo(s0: Shape, s1: Shape, blk: nat) {
    && |s0.role| <= |s1.role| && blk < |s1.role| && (blk < |s0.role| ==> s0.role[blk] == Free)
    && forall b :: 0 <= b < |s1.role| && b != blk ==> b < |s0.role| && s1.role[b] == s0.role[b]
  }

  lemma NewLimbo(s0: Shape, s1: Shape, s: Shape, k: Key, blk: nat)
    requires OneMoreLimbo(s0, s1, blk) && SameLimbo(s1, s)
    ensures SameLimbo(s0, AddNode(s, k, blk))
  {
  }

  /** Writing a block that is neither data nor a node yet. */
  lemma WriteNew(d: Disk, s: Shape, reserved: set<nat>, hole: Hole, d': Disk, s': Shape, k: Key, blk: nat)
    requires Inv(d, s, reserved, hole) && blk < |s.role| && s.role[blk] == Limbo && |d'.blocks| == |d.blocks|
    requires s'.dir == s.dir && s'.node == s.node[k := blk] && k !in s.node
    requires forall b :: 0 <= b < |d.blocks| && b != blk ==> d'.blocks[b] == d.blocks[b]
    ensures Keeps(d, s, d', s', k.depth)
  {
    hide DataInv, FreeInv, PartialInv, DownInv, UpInv, NonEmptyInv;
  }

  /** The block at the head of the list has room. */
  lemma FreeEntryRoom(d: Disk, s: Shape)
    requires Inv(d, s, {}, NoHole) && d.freeEntry != 0
    ensures |s.role| == |d.blocks| && 0 < d.freeEntry < |d.blocks| && s.role[d.freeEntry] == Data
    ensures Prev(d.blocks[d.freeEntry]) == 0 && Next(d.blocks[d.freeEntry]) < |d.blocks|
    ensures exists i :: 0 <= i < SLOTS && Rec(d.blocks[d.freeEntry], i) == EMPTY_RECORD
  {
    hide DownInv, UpInv, NonEmptyInv, Used;
    var blk := d.freeEntry;
    assert s.partial[0] == blk && blk in s.partial;
    Neighbours(d.blocks, s.partial, blk, 0, d.blocks[blk]);
    assert DataBlock(s.owner, blk, d.blocks[blk], {});
    ZeroSlot(s.owner, blk, d.blocks[blk]);
  }

  /** A slot with a zero record belongs to no id. */
  lemma FreshSlot(d: Disk, s: Shape, sl: Slot)
    requires Inv(d, s, {}, NoHole)
    requires sl.blk < |d.blocks| == |s.role| && s.role[sl.blk] == Data
    requires sl.i < SLOTS && Rec(d.blocks[sl.blk], sl.i) == EMPTY_RECORD
    ensures forall id :: id in s.dir ==> s.dir[id] != sl
  {
  }

  lemma TakeKeeps(d: Disk, s: Shape, reserved: set<nat>, hole: Hole)
    requires Inv(d, s, reserved, hole)
    ensures d.freeBlk < |d.blocks| && (s.free != [] ==> s.free[0] < |s.role|)
    ensures Keeps(d, s, TakeDisk(d), TakeShape(s), DEPTH)
  {
    hide DownInv, UpInv, NonEmptyInv, DataInv, PartialInv;
    TakeRole(d, s);
    KeepsOthers(d, s, reserved, hole, TakeDisk(d), TakeShape(s));
  }

  lemma LimboEmpty(d: Disk, s: Shape, blk: nat)
    requires Inv(d, s, {}, NoHole) && blk < |s.role| && s.role[blk] == Limbo
    ensures forall id :: id in s.dir ==> s.dir[id].blk != blk
  {
  }

  lemma OffsetPositive(d: Disk, s: Shape, id: nat)
    ensures id in s.dir ==> Offset(s.dir[id].blk, s.dir[id].i) > 0
  {
  }

  /**
   Every block from the root up to the end of the file is exactly one of: the block of one tree node,
   a data block that holds at least one id, or a member of the free chain. A block is on the list of
   blocks with room exactly if it holds between 1 and 20 ids.
   */
  lemma BlockPartition(d: Disk, s: Shape, b: nat)
    requires Consistent(d, s) && ROOT <= b < |d.blocks|
    ensures var node := exists k :: k in s.node && s.node[k] == b;
            var data := exists id :: id in s.dir && s.dir[id].blk == b;
            && (node || data || b in s.free)
            && !(node && data) && !(node && b in s.free) && !(data && b in s.free)
            && (b in s.partial <==> 1 <= Used(s.owner, b, SLOTS) <= SLOTS - 1)
  {
    hide DownInv, UpInv, NonEmptyInv;
    UsedBounds(s.owner, b, SLOTS);
    if s.role[b] == Data {
      assert DataBlock(s.owner, b, d.blocks[b], {});
      var i :| 0 <= i < SLOTS && Slot(b, i) in s.owner;
      assert s.dir[s.owner[Slot(b, i)]].blk == b;
    } else if s.role[b].Tree? {
      assert s.node[KeyOf(s.role[b])] == b;
    }
  }
}
