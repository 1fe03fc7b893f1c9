/**
 The layout of the quota file (`include/linux/quota.h`): blocks of 256 words that are read either as
 the references of a tree node or as a header followed by records.
 */
module QuotaBlocks {
  import opened Basics

  const WORDS := 256       // 32-bit words in a block of DQBLKSIZE bytes; also references in a node
  const HEADER := 4        // words of `disk_dqdbheader`
  const RECORD := 12       // words of `disk_dqblk`
  const SLOTS := 21        // DQSTRINBLK
  const ROOT := 1          // DQTREEOFF
  const DEPTH := 4         // DQTREEDEPTH
  const MAX_ID := 0x1_0000_0000

  type Block = b: seq<nat> | |b| == WORDS witness Zeros(WORDS)
  type Record = r: seq<nat> | |r| == RECORD witness Zeros(RECORD)

  const EMPTY_BLOCK: Block := Zeros(WORDS)
  const EMPTY_RECORD: Record := Zeros(RECORD)

  /** `dqdh_next_free`, `dqdh_prev_free` and `dqdh_entries`. */
  function Next(b: Block): nat { b[0] }

  function Prev(b: Block): nat { b[1] }

  function Entries(b: Block): nat { b[2] }

  function WithNext(b: Block, x: nat): Block { b[0 := x] }

  function WithPrev(b: Block, x: nat): Block { b[1 := x] }

  function WithEntries(b: Block, x: nat): Block { b[2 := x] }

  function Position(i: nat): nat { HEADER + RECORD * i }

  function Rec(b: Block, i: nat): Record
    requires i < SLOTS
  {
    b[Position(i)..Position(i) + RECORD]
  }

  function WithRec(b: Block, i: nat, r: Record): Block
    requires i < SLOTS
  {
    b[..Position(i)] + r + b[Position(i) + RECORD..]
  }

  /** `dqb_id` is the first word of a record. */
  function RecId(r: Record): nat { r[0] }

  /** The words after the two links. */
  predicate SameBody(a: Block, b: Block) {
    forall k :: 2 <= k < WORDS ==> a[k] == b[k]
  }

  predicate SameRecords(a: Block, b: Block) {
    forall i :: 0 <= i < SLOTS ==> Rec(a, i) == Rec(b, i)
  }

  lemma BodyKeepsRecords(a: Block, b: Block)
    requires forall k :: HEADER <= k < WORDS ==> a[k] == b[k]
    ensures SameRecords(a, b)
  {
  }

  lemma WithRecGet(b: Block, i: nat, r: Record)
    requires i < SLOTS
    ensures Rec(WithRec(b, i, r), i) == r
    ensures forall k :: 0 <= k < SLOTS && k != i ==> Rec(WithRec(b, i, r), k) == Rec(b, k)
    ensures forall k :: 0 <= k < HEADER ==> WithRec(b, i, r)[k] == b[k]
  {
    var c := WithRec(b, i, r);
    forall k | 0 <= k < SLOTS && k != i ensures Rec(c, k) == Rec(b, k) {
      if k < i { assert Position(k) + RECORD <= Position(i); } else { assert Position(i) + RECORD <= Position(k); }
    }
  }

  lemma EmptyRecords()
    ensures forall k :: 0 <= k < WORDS ==> EMPTY_BLOCK[k] == 0
    ensures forall i :: 0 <= i < SLOTS ==> Rec(EMPTY_BLOCK, i) == EMPTY_RECORD
  {
  }

  // ---- file offsets

  /** `dq_off` of slot `i` of block `blk`. */
  function Offset(blk: nat, i: nat): nat { 1024 * blk + 16 + 48 * i }

  lemma OffsetParts(blk: nat, i: nat)
    requires i < SLOTS
    ensures Offset(blk, i) / 1024 == blk && (Offset(blk, i) % 1024 - 16) / 48 == i
  {
  }

  /** DQSTRINBLK: as many records as there is room for behind the header. */
  lemma SlotsFillBlock()
    ensures HEADER + RECORD * SLOTS <= WORDS < HEADER + RECORD * (SLOTS + 1)
  {
  }

  // ---- the file as one sequence of words

  /** Word `k` of the file, the one at byte `4 * k`. */
  function Word(blocks: seq<Block>, k: nat): nat
    requires k < WORDS * |blocks|
  {
    blocks[k / WORDS][k % WORDS]
  }

  /** The bytes of slot `i` from `Offset` on are the words of its record. */
  lemma OffsetIsPosition(blk: nat, i: nat)
    ensures Offset(blk, i) == 4 * (WORDS * blk + Position(i))
  {
  }

  lemma WordInBlock(blocks: seq<Block>, blk: nat, j: nat)
    requires blk < |blocks| && j < WORDS
    ensures WORDS * blk + j < WORDS * |blocks| && Word(blocks, WORDS * blk + j) == blocks[blk][j]
  {
    var k := WORDS * blk + j;
    assert k / WORDS == blk && k % WORDS == j;
  }

  /** The words from byte `off` on are `r`. */
  ghost predicate StoredAt(blocks: seq<Block>, off: nat, r: Record) {
    && off % 4 == 0 && off / 4 + RECORD <= WORDS * |blocks|
    && forall k :: 0 <= k < RECORD ==> Word(blocks, off / 4 + k) == r[k]
  }

  lemma RecIsWords(blocks: seq<Block>, blk: nat, i: nat)
    requires blk < |blocks| && i < SLOTS
    ensures StoredAt(blocks, Offset(blk, i), Rec(blocks[blk], i))
  {
    OffsetIsPosition(blk, i);
    forall k | 0 <= k < RECORD ensures Word(blocks, Offset(blk, i) / 4 + k) == Rec(blocks[blk], i)[k] {
      WordInBlock(blocks, blk, Position(i) + k);
    }
  }

  /** The words from byte `off` on are now `r`, and all others of the file are as before. */
  ghost predicate WrittenAt(blocks: seq<Block>, blocks': seq<Block>, off: nat, r: Record) {
    && |blocks'| == |blocks| && StoredAt(blocks', off, r)
    && forall k: nat :: k < WORDS * |blocks| && !(off / 4 <= k < off / 4 + RECORD) ==> Word(blocks', k) == Word(blocks, k)
  }

  lemma WithRecWords(blocks: seq<Block>, blk: nat, i: nat, r: Record)
    requires blk < |blocks| && i < SLOTS
    ensures WrittenAt(blocks, blocks[blk := WithRec(blocks[blk], i, r)], Offset(blk, i), r)
  {
    var blocks' := blocks[blk := WithRec(blocks[blk], i, r)];
    OffsetIsPosition(blk, i);
    WithRecGet(blocks[blk], i, r);
    RecIsWords(blocks', blk, i);
    var off := Offset(blk, i) / 4;
    forall k: nat | k < WORDS * |blocks| && !(off <= k < off + RECORD) ensures Word(blocks', k) == Word(blocks, k) {
      WordOfWritten(blocks, blk, i, r, k / WORDS, k % WORDS);
      assert k == WORDS * (k / WORDS) + k % WORDS;
    }
  }

  lemma WordOfWritten(blocks: seq<Block>, blk: nat, i: nat, r: Record, b: nat, j: nat)
    requires blk < |blocks| && i < SLOTS && b < |blocks| && j < WORDS
    ensures blocks[blk := WithRec(blocks[blk], i, r)][b][j] ==
            if b == blk && Position(i) <= j < Position(i) + RECORD then r[j - Position(i)] else blocks[b][j]
  {
  }

  // ---- ids

  /** 256 to the power of the number of bytes below depth `d`. */
  function Weight(d: nat): nat
    requires d <= DEPTH
  {
    if d == 0 then 0x1_0000_0000 else if d == 1 then 0x100_0000 else if d == 2 then 0x1_0000
    else if d == 3 then 0x100 else 1
  }

  /** The upper `d` bytes of an id. */
  function Prefix(id: nat, d: nat): nat
    requires d <= DEPTH
  {
    id / Weight(d)
  }

  /** GETIDINDEX: byte `d` of an id, counted from the top. */
  function Index(id: nat, d: nat): nat
    requires d < DEPTH
  {
    id / Weight(d + 1) % 256
  }

  lemma PrefixStep(id: nat, d: nat)
    requires d < DEPTH
    ensures Prefix(id, d + 1) == 256 * Prefix(id, d) + Index(id, d)
    ensures Prefix(id, d + 1) / 256 == Prefix(id, d) && Prefix(id, d + 1) % 256 == Index(id, d) < WORDS
  {
  }
}
