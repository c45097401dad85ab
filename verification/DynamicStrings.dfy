/**
  The table of dynamic strings in memory: blocks of arrays that are searched,
  filled and compacted in place.  Every method leaves the blocks as the functions
  of DynamicStringModel say.
*/
module DynamicStrings {
  import opened Common
  import opened DynamicStringModel

  class StringBlock {
    var freeEntries: int
    var totalTextLength: int
    var dirty: bool
    const entryType: array<Kind>
    const stringOffset: array<int>
    const text: array<Char>

    ghost predicate Valid() {
      entryType.Length == BLOCK_ENTRIES && stringOffset.Length == BLOCK_ENTRIES && text.Length == BLOCK_SIZE
      && stringOffset != text
    }

    ghost const footprint: set<object> := {this, entryType, stringOffset, text}

    ghost function View(): Block
      reads this, entryType, stringOffset, text
    {
      Block(freeEntries, totalTextLength, dirty, entryType[..], stringOffset[..], text[..])
    }

    /** A block of zeros, except that all entries count as free. */
    constructor ()
      ensures Valid() && View() == EmptyBlock() && fresh(entryType) && fresh(stringOffset) && fresh(text)
    {
      entryType := new Kind[BLOCK_ENTRIES](_ => Free);
      stringOffset := new int[BLOCK_ENTRIES](_ => 0);
      text := new Char[BLOCK_SIZE](_ => 0);
      freeEntries, totalTextLength, dirty := BLOCK_ENTRIES, 0, false;
    }

    method FindFree() returns (index: int)
      requires Valid()
      ensures index == if FirstFree(View().entryType) < BLOCK_ENTRIES then FirstFree(View().entryType) else -1
    {
      for i := 0 to BLOCK_ENTRIES
        invariant forall j :: 0 <= j < i ==> entryType[j] != Free
      {
        if entryType[i] == Free {
          return i;
        }
      }
      return -1;
    }

    /** Copies a string and its zero to an offset. */
    method CopyString(offset: nat, s: seq<Char>)
      requires Valid() && offset + |s| + 1 <= BLOCK_SIZE
      modifies text
      ensures text[..] == old(text[..offset]) + s + [0] + old(text[offset + |s| + 1..])
    {
      for i := 0 to |s|
        invariant forall k :: 0 <= k < offset ==> text[k] == old(text[k])
        invariant forall k :: offset <= k < offset + i ==> text[k] == s[k - offset]
        invariant forall k :: offset + i <= k < BLOCK_SIZE ==> text[k] == old(text[k])
      {
        text[offset + i] := s[i];
      }
      text[offset + |s|] := 0;
    }

    /** Puts a string behind the text and enters it at `index`. */
    method Store(index: nat, s: seq<Char>)
      requires Valid() && index < BLOCK_ENTRIES
      requires 0 <= totalTextLength && totalTextLength + |s| + 1 <= BLOCK_SIZE
      modifies this, entryType, stringOffset, text
      ensures View() == Stored(old(View()), index, s)
    {
      var offset := totalTextLength;
      freeEntries := freeEntries - 1;
      totalTextLength := totalTextLength + |s| + 1;
      entryType[index] := Allocated;
      stringOffset[index] := offset;
      CopyString(offset, s);
    }

    /** Marks an entry for the next cleanup. */
    method Mark(index: nat)
      requires Valid() && index < BLOCK_ENTRIES
      modifies this, entryType
      ensures View() == Marked(old(View()), index)
    {
      entryType[index] := Deleted;
      dirty := true;
    }

    /** The length of the string at an offset. */
    method Length(offset: nat) returns (n: nat)
      requires Valid() && offset <= BLOCK_SIZE
      ensures n == StrLen(text[..], offset)
    {
      n := 0;
      while offset + n < BLOCK_SIZE && text[offset + n] != 0
        invariant offset + n <= BLOCK_SIZE
        invariant StrLen(text[..], offset) == n + StrLen(text[..], offset + n)
        decreases BLOCK_SIZE - n
      {
        n := n + 1;
      }
    }

    /** Moves the text behind `at + size` down to `at`. */
    method Close(at: nat, size: nat)
      requires Valid() && at + size <= BLOCK_SIZE
      modifies text
      ensures text[..] == Closed(old(text[..]), at, size)
    {
      var n := BLOCK_SIZE - (at + size);
      for i := 0 to n
        invariant forall k :: 0 <= k < at ==> text[k] == old(text[k])
        invariant forall k :: at <= k < at + i ==> text[k] == old(text[k + size])
        invariant forall k :: at + i <= k < BLOCK_SIZE ==> text[k] == old(text[k])
      {
        text[at + i] := text[at + size + i];
      }
    }

    /** Moves the offsets behind a string that has been taken out. */
    method Shift(at: nat, size: nat)
      requires Valid()
      requires forall j :: 0 <= j < BLOCK_ENTRIES && entryType[j] != Free && stringOffset[j] > at ==> stringOffset[j] >= at + size
      modifies stringOffset
      ensures forall j :: 0 <= j < BLOCK_ENTRIES ==> stringOffset[j] == Shifted(old(View()), at, size, j)
    {
      for j := 0 to BLOCK_ENTRIES
        invariant forall k :: 0 <= k < j ==> stringOffset[k] == Shifted(old(View()), at, size, k)
        invariant forall k :: j <= k < BLOCK_ENTRIES ==> stringOffset[k] == old(stringOffset[k])
      {
        if entryType[j] != Free && stringOffset[j] > at {
          assert stringOffset[j] >= at + size;
          stringOffset[j] := stringOffset[j] - size;
        }
      }
    }

    /** Frees a marked entry and closes the gap its text leaves. */
    method FreeEntry(i: nat)
      requires Valid() && BlockInv(View()) && i < BLOCK_ENTRIES && entryType[i] == Deleted
      modifies entryType, stringOffset, text
      ensures Placed(old(View()), i) && View() == Freed(old(View()), i)
      ensures BlockInv(View())
    {
      hide StrLen, BlockInv, Closed;
      ghost var b := View();
      FreedInv(b, i);
      GapIsClear(b, i);
      var offset := stringOffset[i];
      var length := Length(offset);
      var size := length + 1;
      var end := offset + size;
      assert end == End(b, i) && end <= BLOCK_SIZE;
      entryType[i] := Free;
      // The server logs an error for text that runs over the end of the block;
      // the invariant rules it out.
      Close(offset, size);
      Shift(offset, size);
      assert View().text == Freed(b, i).text;
      assert forall j :: 0 <= j < BLOCK_ENTRIES ==> stringOffset[j] == Freed(b, i).stringOffset[j];
      assert View().stringOffset == Freed(b, i).stringOffset;
    }

    /** Frees all marked entries of a block that has any. */
    method Clean()
      requires Valid() && BlockInv(View())
      modifies entryType, stringOffset, text
      ensures View() == Cleaned(old(View())) && BlockInv(View())
    {
      hide *;
      CleanedIs();
      if !dirty {
        return;
      }
      for i := 0 to BLOCK_ENTRIES
        invariant BlockInv(View())
        invariant CleanFrom(View(), i) == CleanFrom(old(View()), 0)
      {
        CleanStep(View(), i);
        FreeIfMarked(i);
      }
      CleanDone(View());
    }

    lemma CleanedIs()
      requires Valid() && BlockInv(View())
      ensures 0 <= BLOCK_ENTRIES && Cleaned(View()) == if dirty then CleanFrom(View(), 0) else View()
    {
    }

    method FreeIfMarked(i: nat)
      requires Valid() && BlockInv(View()) && i < BLOCK_ENTRIES
      modifies entryType, stringOffset, text
      ensures View() == CleanEntry(old(View()), i) && BlockInv(View())
    {
      hide BlockInv, CleanEntry, Freed, Lookup;
      CleanStep(View(), i);
      if entryType[i] == Deleted {
        FreeEntry(i);
      }
    }
  }

  /** The text of an entry ends in the block, and all others are clear of it. */
  lemma GapIsClear(b: Block, i: nat)
    requires BlockInv(b) && i < BLOCK_ENTRIES && |b.entryType| == BLOCK_ENTRIES && b.entryType[i] == Deleted
    ensures Placed(b, i) && 0 <= b.stringOffset[i] <= End(b, i) <= BLOCK_SIZE
    ensures forall j :: 0 <= j < BLOCK_ENTRIES && j != i && b.entryType[j] != Free ==>
      b.stringOffset[j] <= b.stringOffset[i] || b.stringOffset[j] >= End(b, i)
  {
    assert Placed(b, i);
    hide StrLen, BlockInv;
    forall j | 0 <= j < BLOCK_ENTRIES && j != i && b.entryType[j] != Free && b.stringOffset[j] > b.stringOffset[i]
      ensures b.stringOffset[j] >= End(b, i)
    {
      Separated(b, i, j);
    }
  }

  lemma CleanDone(b: Block)
    requires BlockInv(b)
    ensures CleanFrom(b, BLOCK_ENTRIES) == b
  {
  }

  lemma CleanStep(b: Block, i: nat)
    requires BlockInv(b) && i < BLOCK_ENTRIES
    ensures |b.entryType| == BLOCK_ENTRIES && BlockInv(CleanEntry(b, i)) && CleanFrom(b, i) == CleanFrom(CleanEntry(b, i), i + 1)
    ensures b.entryType[i] == Deleted ==> Placed(b, i) && CleanEntry(b, i) == Freed(b, i)
    ensures b.entryType[i] != Deleted ==> CleanEntry(b, i) == b
  {
    hide Freed, Lookup;
    CleanEntryKeeps(b, i);
  }

  class StringTable {
    var blocks: seq<StringBlock>
    ghost var view: seq<Block>
    ghost var repr: set<object>

    /** No two blocks share memory, and `view` is what they hold. */
    ghost predicate Valid()
      reads this, repr
    {
      && this !in repr && |view| == |blocks|
      && (forall i :: 0 <= i < |blocks| ==> blocks[i].footprint <= repr && blocks[i].Valid() && blocks[i].View() == view[i])
      && (forall i, j :: 0 <= i < j < |blocks| ==> blocks[i].footprint !! blocks[j].footprint)
      && TableInv(view)
    }

    constructor ()
      ensures Valid() && view == [] && repr == {}
    {
      blocks, view, repr := [], [], {};
    }

    /** The first block with room, a new one if need be. */
    method FindBlock(length: nat) returns (index: nat)
      requires Valid() && 0 < length < BLOCK_SIZE
      modifies this
      ensures Valid() && fresh(repr - old(repr)) && old(repr) <= repr
      ensures index == FirstRoom(old(view), length) < |blocks|
      ensures view == if index == |old(view)| then old(view) + [EmptyBlock()] else old(view)
    {
      hide BlockInv;
      index := 0;
      while index < |blocks|
        invariant 0 <= index <= |blocks|
        invariant forall i :: 0 <= i < index ==> !HasRoom(view[i], length)
      {
        if blocks[index].freeEntries > 0 && blocks[index].totalTextLength + length + 1 <= BLOCK_SIZE {
          FirstRoomIs(view, length, index);
          return;
        }
        index := index + 1;
      }
      FirstRoomIs(view, length, index);
      AddBlock();
    }

    method AddBlock()
      requires Valid()
      modifies this
      ensures Valid() && fresh(repr - old(repr)) && old(repr) <= repr
      ensures view == old(view) + [EmptyBlock()] && |blocks| == |old(blocks)| + 1
    {
      hide BlockInv;
      EmptyBlockInv();
      var block := new StringBlock();
      blocks := blocks + [block];
      view := view + [EmptyBlock()];
      repr := repr + block.footprint;
    }

    /** Stores a string in a free entry of a block with room. */
    method StoreIn(k: nat, entry: nat, s: seq<Char>)
      requires Valid() && k < |blocks| && entry < BLOCK_ENTRIES && |view[k].entryType| == BLOCK_ENTRIES
      requires view[k].entryType[entry] == Free && HasRoom(view[k], |s|) && NoNul(s) && Shaped(view[k])
      modifies this, repr
      ensures Valid() && repr == old(repr) && blocks == old(blocks)
      ensures view == old(view)[k := Stored(old(view)[k], entry, s)]
    {
      hide BlockInv, Stored;
      StoredInv(view[k], entry, s);
      blocks[k].Store(entry, s);
      view := view[k := Stored(view[k], entry, s)];
    }

    method AddDynamicString(s: seq<Char>) returns (number: nat)
      requires Valid() && NoNul(s)
      modifies this, repr
      ensures Valid() && fresh(repr - old(repr)) && old(repr) <= repr
      ensures (view, number) == Added(old(view), s)
    {
      hide Stored, BlockInv, FirstFree, FirstRoom;
      if |s| == 0 || |s| + 1 > BLOCK_SIZE {
        return 0;
      }
      AddedShape(view, s);
      var k := FindBlock(|s|);
      var entry := blocks[k].FindFree();
      // The server logs an error when no entry is free.
      assert entry != -1;
      StoreIn(k, entry, s);
      number := 1 + k * BLOCK_ENTRIES + entry;
    }

    /** The string of a handle; nothing if the block or the entry does not exist. */
    method GetDynamicString(number: nat) returns (r: Option<seq<Char>>)
      requires Valid()
      ensures r == Get(view, number)
    {
      if number == 0 {
        return None;
      }
      var k, entry := (number - 1) / BLOCK_ENTRIES, (number - 1) % BLOCK_ENTRIES;
      if k >= |blocks| || blocks[k].entryType[entry] != Allocated {
        return None;
      }
      var block := blocks[k];
      assert Placed(block.View(), entry);
      var offset := block.stringOffset[entry];
      var length := block.Length(offset);
      r := Some(block.text[offset..offset + length]);
      assert block.text[offset..offset + length] == block.text[..][offset..offset + length];
    }

    method DeleteDynamicString(number: nat)
      requires Valid()
      modifies this, repr
      ensures Valid() && repr == old(repr) && view == DeletedFrom(old(view), number)
    {
      if number == 0 {
        return;
      }
      hide StrLen;
      DeletedKeeps(view, number);
      var k, entry := (number - 1) / BLOCK_ENTRIES, (number - 1) % BLOCK_ENTRIES;
      if k < |blocks| && blocks[k].entryType[entry] == Allocated {
        blocks[k].Mark(entry);
        view := view[k := blocks[k].View()];
      }
    }

    method CleanupDynamicStrings()
      requires Valid()
      modifies this, repr
      ensures Valid() && repr == old(repr) && view == CleanedTable(old(view))
    {
      hide BlockInv, Cleaned;
      for k := 0 to |blocks|
        invariant Valid() && repr == old(repr) && blocks == old(blocks)
        invariant forall i :: 0 <= i < k ==> view[i] == Cleaned(old(view)[i])
        invariant forall i :: k <= i < |blocks| ==> view[i] == old(view)[i]
      {
        blocks[k].Clean();
        view := view[k := blocks[k].View()];
      }
    }
  }

  /** Adding a string, spelled out: a block with room has a free entry. */
  lemma AddedShape(t: seq<Block>, s: seq<Char>)
    requires TableInv(t) && 0 < |s| < BLOCK_SIZE
    ensures var k := FirstRoom(t, |s|);
      var t1 := if k == |t| then t + [EmptyBlock()] else t;
      && k < |t1| && Shaped(t1[k]) && HasRoom(t1[k], |s|)
      && var i := FirstFree(t1[k].entryType);
         && i < BLOCK_ENTRIES && t1[k].entryType[i] == Free
         && Added(t, s) == (t1[k := Stored(t1[k], i, s)], 1 + k * BLOCK_ENTRIES + i)
  {
    hide Stored, BlockInv, FirstFree, FirstRoom, EmptyBlock;
    EmptyBlockInv();
    EmptyHasRoom(|s|);
    var k := FirstRoom(t, |s|);
    RoomHasEntry(if k == |t| then EmptyBlock() else t[k], |s|);
  }

  lemma EmptyHasRoom(length: nat)
    requires length < BLOCK_SIZE
    ensures HasRoom(EmptyBlock(), length)
  {
  }

  lemma RoomHasEntry(b: Block, length: nat)
    requires BlockInv(b) && HasRoom(b, length)
    ensures Shaped(b) && FirstFree(b.entryType) < BLOCK_ENTRIES
  {
    SomeSlotIsFree(b.entryType);
  }

  lemma {:induction false} FirstRoomIs(t: seq<Block>, length: nat, k: nat)
    requires k <= |t| && (forall i :: 0 <= i < k ==> !HasRoom(t[i], length)) && (k < |t| ==> HasRoom(t[k], length))
    ensures FirstRoom(t, length) == k
  {
  }
}
