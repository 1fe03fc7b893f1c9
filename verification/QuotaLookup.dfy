/**
 Searching the quota file, and what the search finds in a consistent file.
 */
module QuotaLookup {
  import opened QuotaBlocks
  import opened QuotaShape
  import opened QuotaSteps

  /** 0, the offset of a record, or -EIO. */
  datatype Found = Absent | At(offset: nat) | Broken

  /** Reading past the end of the file yields zeroes. */
  function BlockAt(blocks: seq<Block>, n: nat): Block {
    if n < |blocks| then blocks[n] else EMPTY_BLOCK
  }

  /** The test of `find_block_dqentry`; for id 0 a zero record must be told from the record of id 0. */
  predicate Matches(r: Record, id: nat) {
    RecId(r) == id && (id != 0 || r != EMPTY_RECORD)
  }

  /** The first slot from `i` on whose record matches. */
  function FirstMatch(b: Block, id: nat, i: nat): (k: nat)
    requires i <= SLOTS
    ensures i <= k <= SLOTS
    ensures k < SLOTS ==> Matches(Rec(b, k), id)
    ensures forall m :: i <= m < k ==> !Matches(Rec(b, m), id)
    decreases SLOTS - i
  {
    if i == SLOTS || Matches(Rec(b, i), id) then i else FirstMatch(b, id, i + 1)
  }

  function FindBlock(blocks: seq<Block>, blk: nat, id: nat): Found {
    var i := FirstMatch(BlockAt(blocks, blk), id, 0);
    if i == SLOTS then Broken else At(Offset(blk, i))
  }

  /** At byte `off` there is a record of `id` in block `blk`; a record of id 0 is not all zero. */
  ghost predicate RecordOf(blocks: seq<Block>, blk: nat, id: nat, off: nat) {
    && (exists i :: 0 <= i < SLOTS && off == Offset(blk, i))
    && off / 4 + RECORD <= WORDS * |blocks| && Word(blocks, off / 4) == id
    && (id != 0 || exists k :: off / 4 <= k < off / 4 + RECORD && Word(blocks, k) != 0)
  }

  /** The words at the offset of a slot decide whether its record matches. */
  lemma MatchesIff(blocks: seq<Block>, blk: nat, id: nat, i: nat)
    requires blk < |blocks| && i < SLOTS
    ensures RecordOf(blocks, blk, id, Offset(blk, i)) <==> Matches(Rec(blocks[blk], i), id)
  {
    hide Word, Offset, Rec;
    RecIsWords(blocks, blk, i);
    var r, off := Rec(blocks[blk], i), Offset(blk, i) / 4;
    assert Word(blocks, off + 0) == r[0];
    if r != EMPTY_RECORD {
      assert !forall k :: 0 <= k < RECORD ==> r[k] == EMPTY_RECORD[k];
      var k :| 0 <= k < RECORD && r[k] != EMPTY_RECORD[k];
      assert Word(blocks, off + k) != 0;
    }
    if k :| off <= k < off + RECORD && Word(blocks, k) != 0 { assert r[k - off] != EMPTY_RECORD[k - off]; }
  }

  /** The scan of a data block finds the first record of an id in it, and fails exactly if there is none. */
  lemma FindBlockMeans(blocks: seq<Block>, blk: nat, id: nat)
    requires blk < |blocks|
    ensures match FindBlock(blocks, blk, id)
            case At(off) => RecordOf(blocks, blk, id, off) && forall o :: 0 <= o < off ==> !RecordOf(blocks, blk, id, o)
            case Broken => forall o :: 0 <= o ==> !RecordOf(blocks, blk, id, o)
            case Absent => false
  {
    hide Matches;
    var i := FirstMatch(blocks[blk], id, 0);
    if i < SLOTS { MatchesIff(blocks, blk, id, i); }
    forall o: nat | RecordOf(blocks, blk, id, o) ensures i < SLOTS && Offset(blk, i) <= o {
      var j :| 0 <= j < SLOTS && o == Offset(blk, j);
      MatchesIff(blocks, blk, id, j);
    }
  }

  function FindTree(blocks: seq<Block>, blk: nat, depth: nat, id: nat): Found
    requires depth < DEPTH
    decreases DEPTH - depth
  {
    var r := BlockAt(blocks, blk)[Index(id, depth)];
    if r == 0 then Absent
    else if depth < DEPTH - 1 then FindTree(blocks, r, depth + 1, id)
    else FindBlock(blocks, r, id)
  }

  function Lookup(blocks: seq<Block>, id: nat): Found { FindTree(blocks, ROOT, 0, id) }

  /** The place of depth `d` on the path to an id. */
  function Place(id: nat, d: nat): (k: Key)
    requires d <= DEPTH
    ensures k.depth == d
  {
    Key(d, Prefix(id, d))
  }

  lemma PlaceStep(id: nat, d: nat)
    requires d < DEPTH
    ensures Child(Place(id, d), Index(id, d)) == Place(id, d + 1) && Parent(Place(id, d + 1)) == Place(id, d)
    ensures Place(id, d + 1).prefix % 256 == Index(id, d) && Index(id, d) < WORDS
  {
    hide Prefix, Index;
    PrefixStep(id, d);
  }

  /** The whole path to an id that is present is there. */
  lemma {:induction false} PathUp(blocks: seq<Block>, s: Shape, hole: Hole, id: nat, d: nat)
    requires UpInv(blocks, s, hole) && !hole.Unlinked? && id in s.dir && d <= DEPTH
    ensures Has(s, Place(id, d))
    decreases DEPTH - d
  {
    if d < DEPTH {
      PathUp(blocks, s, hole, id, d + 1);
      PlaceStep(id, d);
      assert Linked(blocks, s, Place(id, d + 1));
    }
  }

  lemma NonZeroWord(b: Block) returns (i: nat)
    requires b != EMPTY_BLOCK
    ensures i < WORDS && b[i] != 0
  {
    assert !(forall i :: 0 <= i < WORDS ==> b[i] == EMPTY_BLOCK[i]);
    i :| 0 <= i < WORDS && b[i] != EMPTY_BLOCK[i];
  }

  /** Below every reference there is an id. */
  lemma {:induction false} SomeId(blocks: seq<Block>, s: Shape, k: Key, j: nat) returns (id: nat)
    requires TreeInv(blocks, s, NoHole) && k in s.node && j < WORDS && blocks[s.node[k]][j] != 0
    ensures id in s.dir
    decreases DEPTH - k.depth
  {
    assert RefOk(blocks, s, k, j);
    var c := Child(k, j);
    if c.depth == DEPTH {
      id := c.prefix;
    } else {
      var i := NonZeroWord(blocks[s.node[c]]);
      id := SomeId(blocks, s, c, i);
    }
  }

  /** What the search finds: a record that is all zero, as while it is only reserved, is not found. */
  function Expected(s: Shape, reserved: set<nat>, id: nat): Found {
    if id !in s.dir then Absent
    else if id in reserved then Broken
    else At(Offset(s.dir[id].blk, s.dir[id].i))
  }

  lemma FindBlockCorrect(blocks: seq<Block>, s: Shape, reserved: set<nat>, id: nat)
    requires |s.role| == |blocks| && DirInv(s) && DataInv(blocks, s, reserved) && id in s.dir
    ensures FindBlock(blocks, s.dir[id].blk, id) == Expected(s, reserved, id)
  {
    hide Used;
    var sl := s.dir[id];
    var b := blocks[sl.blk];
    assert DataBlock(s.owner, sl.blk, b, reserved);
    assert SlotOk(s.owner, Slot(sl.blk, sl.i), Rec(b, sl.i), reserved);
    var i := FirstMatch(b, id, 0);
    assert i < SLOTS ==> SlotOk(s.owner, Slot(sl.blk, i), Rec(b, i), reserved);
    assert RecId(EMPTY_RECORD) == 0;
  }

  /** The reference on the path to an id, at depth `depth`. */
  lemma RefOnPath(blocks: seq<Block>, s: Shape, id: nat, depth: nat)
    requires TreeInv(blocks, s, NoHole) && depth < DEPTH && Place(id, depth) in s.node
    ensures var r := blocks[s.node[Place(id, depth)]][Index(id, depth)];
            if r == 0 then id !in s.dir
            else Has(s, Place(id, depth + 1)) && Target(s, Place(id, depth + 1)) == r
  {
    hide Prefix, Index;
    PlaceStep(id, depth);
    assert RefOk(blocks, s, Place(id, depth), Index(id, depth));
    if id in s.dir {
      PathUp(blocks, s, NoHole, id, depth + 1);
      assert Linked(blocks, s, Place(id, depth + 1));
      TargetPositive(s, |blocks|, Place(id, depth + 1));
    }
  }

  lemma {:induction false} FindTreeCorrect(d: Disk, s: Shape, reserved: set<nat>, id: nat, depth: nat)
    requires Inv(d, s, reserved, NoHole) && depth < DEPTH && Place(id, depth) in s.node
    ensures FindTree(d.blocks, s.node[Place(id, depth)], depth, id) == Expected(s, reserved, id)
    decreases DEPTH - depth
  {
    hide FreeInv, PartialInv, Used, DataBlock, DownInv, UpInv, NonEmptyInv, Prefix, Index, FindBlock;
    PlaceStep(id, depth);
    RefOnPath(d.blocks, s, id, depth);
    if d.blocks[s.node[Place(id, depth)]][Index(id, depth)] != 0 {
      if depth < DEPTH - 1 {
        FindTreeCorrect(d, s, reserved, id, depth + 1);
      } else {
        assert Place(id, DEPTH).prefix == id by { LastPrefix(id); }
        FindBlockCorrect(d.blocks, s, reserved, id);
      }
    }
  }

  lemma LastPrefix(id: nat)
    ensures Prefix(id, DEPTH) == id
  {
  }

  /** In a consistent file the search finds exactly the ids that are present, at their slots. */
  lemma LookupCorrect(d: Disk, s: Shape, reserved: set<nat>, id: nat)
    requires Inv(d, s, reserved, NoHole) && Rooted(s) && id < MAX_ID
    ensures Lookup(d.blocks, id) == Expected(s, reserved, id)
  {
    FindTreeCorrect(d, s, reserved, id, 0);
  }
}
