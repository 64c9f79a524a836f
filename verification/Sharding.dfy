/**
 * The slot of each key of a copy-on-write map: one per file for keys a file
 * owns, a hashed page for all others.
 */
module Sharding {
  /** The key type of a copy-on-write map, any at all. */
  type Key(==, !new)

  const PAGES: nat := 4096
  const SLOT_CHUNK: nat := 256
  /** The dirty list files a shard under its slot cast to a 32-bit word. */
  const WORD: nat := 0x1_0000_0000
  const HASH_SHIFT: nat := 0x100_0000_0000

  datatype Owner = File(id: nat) | Workspace

  /** How a key type shards: who owns a key, its hash, and whether the type needs the pages. */
  datatype Keying = Keying(paged: bool, owner: Key -> Owner, hash: Key -> nat)

  function FileSlot(paged: bool, id: nat): nat {
    (if paged then PAGES else 0) + id
  }

  function SlotOf(keying: Keying, k: Key): nat {
    match keying.owner(k)
    case File(id) => FileSlot(keying.paged, id)
    case Workspace => (keying.hash(k) / HASH_SHIFT) % PAGES
  }

  /** The word a slot is filed under in a dirty list. */
  function DirtyWord(at: nat): nat {
    at % WORD
  }

  /**
   * A keying the store may use: every slot fits the word it is filed under,
   * and a type with no pages has no workspace-owned key.
   */
  ghost predicate Fits(keying: Keying) {
    forall k :: SlotOf(keying, k) < WORD && (!keying.paged ==> keying.owner(k).File?)
  }

  /**
   * With pages in front, the files whose shard is filed under a word no page
   * uses are exactly those below `WORD - PAGES`.
   */
  lemma PagedFilesFit(id: nat)
    requires id < WORD
    ensures DirtyWord(FileSlot(true, id)) == FileSlot(true, id) <==> id < WORD - PAGES
    ensures DirtyWord(FileSlot(true, id)) >= PAGES <==> id < WORD - PAGES
  {
  }

  /** The first file past the bound is filed under the word of page 0. */
  lemma PagedFileCollides()
    ensures DirtyWord(FileSlot(true, WORD - PAGES)) == DirtyWord(0)
  {
  }

  /** Under a fitting keying a key sits in a file's shard exactly when the file owns it. */
  lemma FileShardHoldsItsKeys(keying: Keying, k: Key, id: nat)
    requires Fits(keying)
    ensures SlotOf(keying, k) == FileSlot(keying.paged, id) <==> keying.owner(k) == File(id)
  {
  }
}
