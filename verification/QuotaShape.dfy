/**
 What the blocks of a quota file stand for: a 256-way tree of depth four over data blocks, a chain of
 free blocks and a doubly linked list of the data blocks with room. The shape records the role of
 every block; the invariant ties it to the words on disk.
 */
module QuotaShape {
  import opened QuotaBlocks

  datatype Slot = Slot(blk: nat, i: nat)

  /** `Limbo`: allocated, and about to be written for the first time. */
  datatype Role = Header | Tree(depth: nat, prefix: nat) | Data | Free | Limbo

  /** A place in the tree: the ids whose upper `depth` bytes are `prefix`. At depth 4, a single id. */
  datatype Key = Key(depth: nat, prefix: nat)

  datatype Shape = Shape(
    role: seq<Role>,           // of each block
    node: map<Key, nat>,       // the block of each tree node
    dir: map<nat, Slot>,       // the slot of each id: what the file stands for
    owner: map<Slot, nat>,     // the id in each slot
    free: seq<nat>,            // the chain of free blocks
    partial: seq<nat>)         // the list of data blocks with room

  datatype Disk = Disk(blocks: seq<Block>, freeBlk: nat, freeEntry: nat)

  /** A place that exists but is not yet referenced, or a reference to a place that is gone. */
  datatype Hole = NoHole | Unlinked(k: Key) | Dangling(k: Key)

  function Child(k: Key, j: nat): Key { Key(k.depth + 1, 256 * k.prefix + j) }

  function Parent(k: Key): Key
    requires k.depth > 0
  {
    Key(k.depth - 1, k.prefix / 256)
  }

  function KeyOf(r: Role): Key
    requires r.Tree?
  {
    Key(r.depth, r.prefix)
  }

  predicate Has(s: Shape, k: Key) {
    if k.depth < DEPTH then k in s.node else k.depth == DEPTH && k.prefix in s.dir
  }

  /** The block found at a place of the tree. */
  function Target(s: Shape, k: Key): nat
    requires Has(s, k)
  {
    if k.depth < DEPTH then s.node[k] else s.dir[k.prefix].blk
  }

  // ---- the invariant, part by part

  ghost predicate RoleInv(s: Shape, n: nat) {
    && |s.role| == n && n > ROOT && s.role[0] == Header
    && (forall b :: 0 < b < n ==> s.role[b] != Header)
    && (forall b :: 0 <= b < n && s.role[b].Tree? ==> KeyOf(s.role[b]) in s.node && s.node[KeyOf(s.role[b])] == b)
    && (forall k :: k in s.node ==>
          && k.depth < DEPTH && (k.depth == 0 ==> k.prefix == 0)
          && 0 < s.node[k] < n && s.role[s.node[k]] == Tree(k.depth, k.prefix))
  }

  ghost predicate DirInv(s: Shape) {
    && (forall id :: id in s.dir ==>
          && id < MAX_ID && s.dir[id] in s.owner && s.owner[s.dir[id]] == id
          && s.dir[id].i < SLOTS && 0 < s.dir[id].blk < |s.role| && s.role[s.dir[id].blk] == Data)
    && (forall sl :: sl in s.owner ==> s.owner[sl] in s.dir && s.dir[s.owner[sl]] == sl)
  }

  /** A reference leads to the place it should. */
  predicate RefOk(blocks: seq<Block>, s: Shape, k: Key, j: nat)
    requires k in s.node && s.node[k] < |blocks| && j < WORDS
  {
    var r := blocks[s.node[k]][j];
    r != 0 ==> Has(s, Child(k, j)) && Target(s, Child(k, j)) == r
  }

  ghost predicate DownInv(blocks: seq<Block>, s: Shape, hole: Hole)
    requires RoleInv(s, |blocks|)
  {
    forall k: Key, j: nat :: k in s.node && j < WORDS && hole != Dangling(Child(k, j)) ==> RefOk(blocks, s, k, j)
  }

  predicate Linked(blocks: seq<Block>, s: Shape, k: Key)
    requires k.depth > 0 && Has(s, k)
  {
    && Parent(k) in s.node && s.node[Parent(k)] < |blocks|
    && blocks[s.node[Parent(k)]][k.prefix % 256] == Target(s, k)
  }

  ghost predicate UpInv(blocks: seq<Block>, s: Shape, hole: Hole) {
    forall k :: Has(s, k) && k.depth > 0 && hole != Unlinked(k) ==> Linked(blocks, s, k)
  }

  /** No tree node but the root is empty. */
  ghost predicate NonEmptyInv(blocks: seq<Block>, s: Shape)
    requires RoleInv(s, |blocks|)
  {
    forall k :: k in s.node && k.depth > 0 ==> blocks[s.node[k]] != EMPTY_BLOCK
  }

  /** How many of the first `n` slots of block `b` are taken. */
  function Used(owner: map<Slot, nat>, b: nat, n: nat): nat {
    if n == 0 then 0 else Used(owner, b, n - 1) + if Slot(b, n - 1) in owner then 1 else 0
  }

  /** The record of a taken slot carries its id; the other slots, and those just reserved, are zero. */
  predicate SlotOk(owner: map<Slot, nat>, sl: Slot, r: Record, reserved: set<nat>) {
    if sl in owner && owner[sl] !in reserved then r != EMPTY_RECORD && RecId(r) == owner[sl]
    else r == EMPTY_RECORD
  }

  predicate DataBlock(owner: map<Slot, nat>, b: nat, block: Block, reserved: set<nat>) {
    && Entries(block) == Used(owner, b, SLOTS) && Entries(block) > 0
    && forall i :: 0 <= i < SLOTS ==> SlotOk(owner, Slot(b, i), Rec(block, i), reserved)
  }

  ghost predicate DataInv(blocks: seq<Block>, s: Shape, reserved: set<nat>)
    requires |s.role| == |blocks|
  {
    forall b :: 0 <= b < |blocks| && s.role[b] == Data ==> DataBlock(s.owner, b, blocks[b], reserved)
  }

  // ---- linked lists of blocks; 0 ends a list

  function Elem(list: seq<nat>, k: int): nat { if 0 <= k < |list| then list[k] else 0 }

  predicate NoDup(list: seq<nat>) {
    forall i, j :: 0 <= i < j < |list| ==> list[i] != list[j]
  }

  predicate Chain(blocks: seq<Block>, list: seq<nat>, head: nat) {
    && NoDup(list) && head == Elem(list, 0)
    && (forall k :: 0 <= k < |list| ==> 0 < list[k] < |blocks|)
    && (forall k {:trigger Next(blocks[list[k]])} :: 0 <= k < |list| ==> Next(blocks[list[k]]) == Elem(list, k + 1))
  }

  predicate DoubleChain(blocks: seq<Block>, list: seq<nat>, head: nat) {
    && Chain(blocks, list, head)
    && forall k {:trigger Prev(blocks[list[k]])} :: 0 <= k < |list| ==> Prev(blocks[list[k]]) == Elem(list, k - 1)
  }

  ghost predicate FreeInv(d: Disk, s: Shape)
    requires |s.role| == |d.blocks|
  {
    Chain(d.blocks, s.free, d.freeBlk) && forall b :: 0 <= b < |d.blocks| ==> (b in s.free <==> s.role[b] == Free)
  }

  /** A data block is on the list exactly when it has room. */
  ghost predicate PartialInv(d: Disk, s: Shape)
    requires |s.role| == |d.blocks|
  {
    && DoubleChain(d.blocks, s.partial, d.freeEntry)
    && forall b :: 0 <= b < |d.blocks| ==>
         (b in s.partial <==> s.role[b] == Data && Used(s.owner, b, SLOTS) < SLOTS)
  }

  predicate HoleInv(s: Shape, hole: Hole) {
    match hole
    case NoHole => true
    case Unlinked(k) => Has(s, k)
    case Dangling(k) => !Has(s, k)
  }

  ghost predicate TreeInv(blocks: seq<Block>, s: Shape, hole: Hole) {
    && RoleInv(s, |blocks|) && DirInv(s) && HoleInv(s, hole)
    && DownInv(blocks, s, hole) && UpInv(blocks, s, hole) && NonEmptyInv(blocks, s)
  }

  ghost predicate Inv(d: Disk, s: Shape, reserved: set<nat>, hole: Hole) {
    && TreeInv(d.blocks, s, hole)
    && DataInv(d.blocks, s, reserved) && FreeInv(d, s) && PartialInv(d, s)
  }

  ghost predicate Rooted(s: Shape) {
    Key(0, 0) in s.node && s.node[Key(0, 0)] == ROOT
  }

  predicate NoLimbo(s: Shape) {
    forall b :: 0 <= b < |s.role| ==> s.role[b] != Limbo
  }

  /** Between two operations: every block from the root on is a tree, data or free block. */
  ghost predicate Consistent(d: Disk, s: Shape) {
    Inv(d, s, {}, NoHole) && Rooted(s) && NoLimbo(s)
  }

  // ---- counting slots

  lemma {:induction false} UsedAdd(owner: map<Slot, nat>, b: nat, n: nat, i: nat, id: nat)
    requires Slot(b, i) !in owner
    ensures Used(owner[Slot(b, i) := id], b, n) == Used(owner, b, n) + if i < n then 1 else 0
  {
    if n > 0 { UsedAdd(owner, b, n - 1, i, id); }
  }

  lemma {:induction false} UsedRemove(owner: map<Slot, nat>, b: nat, n: nat, i: nat)
    requires Slot(b, i) in owner
    ensures Used(owner - {Slot(b, i)}, b, n) == Used(owner, b, n) - if i < n then 1 else 0
  {
    if n > 0 { UsedRemove(owner, b, n - 1, i); }
  }

  lemma {:induction false} UsedSame(owner: map<Slot, nat>, owner': map<Slot, nat>, b: nat, n: nat)
    requires forall i :: Slot(b, i) in owner <==> Slot(b, i) in owner'
    ensures Used(owner', b, n) == Used(owner, b, n)
  {
    if n > 0 { UsedSame(owner, owner', b, n - 1); }
  }

  lemma {:induction false} UsedBounds(owner: map<Slot, nat>, b: nat, n: nat)
    ensures Used(owner, b, n) <= n
    ensures Used(owner, b, n) == n ==> forall i :: 0 <= i < n ==> Slot(b, i) in owner
    ensures Used(owner, b, n) == 0 <==> forall i :: 0 <= i < n ==> Slot(b, i) !in owner
  {
    if n > 0 { UsedBounds(owner, b, n - 1); }
  }
}
