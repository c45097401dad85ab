/**
  The table of dynamic strings, as a value.

  Strings live in blocks of 32768 characters with 256 entries each.  A handle is
  the number of an entry, counted through all blocks from one.  Deleting a string
  only marks its entry; a later cleanup frees marked entries and moves the text
  behind them down.  A cleanup gives back neither the count of free entries nor
  the text length, so both are only bounds.
*/
module DynamicStringModel {
  import opened Common

  const BLOCK_SIZE := 32768
  const BLOCK_ENTRIES := 256

  datatype Kind = Free | Allocated | Deleted

  datatype Block = Block(
    freeEntries: int,
    totalTextLength: int,
    dirty: bool,
    entryType: seq<Kind>,
    stringOffset: seq<int>,
    text: seq<Char>)

  ghost predicate NoNul(s: seq<Char>) {
    forall i :: 0 <= i < |s| ==> s[i] != 0
  }

  // ------------------------------------------------------- strings in text

  /** The length of the string at an offset, up to the next zero. */
  function StrLen(text: seq<Char>, offset: int): (n: nat)
    requires 0 <= offset
    ensures offset <= |text| ==> offset + n <= |text|
    ensures forall k :: offset <= k < offset + n && k < |text| ==> text[k] != 0
    ensures offset + n < |text| ==> text[offset + n] == 0
    decreases |text| - offset
  {
    if offset < |text| && text[offset] != 0 then 1 + StrLen(text, offset + 1) else 0
  }

  /** A length is determined by the characters in front of the zero and the zero. */
  lemma {:induction false} StrLenIs(text: seq<Char>, offset: int, n: nat)
    requires 0 <= offset && offset + n < |text| && text[offset + n] == 0
    requires forall k :: offset <= k < offset + n ==> text[k] != 0
    ensures StrLen(text, offset) == n
    decreases n
  {
    if n > 0 {
      StrLenIs(text, offset + 1, n - 1);
    }
  }

  function StringAt(text: seq<Char>, offset: int): seq<Char>
    requires 0 <= offset <= |text|
  {
    text[offset..offset + StrLen(text, offset)]
  }

  /** Equal text around a string that ends in the text means an equal string. */
  lemma SameString(text: seq<Char>, offset: int, text': seq<Char>, offset': int)
    requires 0 <= offset && offset + StrLen(text, offset) < |text|
    requires 0 <= offset' && offset' + StrLen(text, offset) < |text'|
    requires text'[offset'..offset' + StrLen(text, offset) + 1] == text[offset..offset + StrLen(text, offset) + 1]
    ensures StrLen(text', offset') == StrLen(text, offset)
    ensures StringAt(text', offset') == StringAt(text, offset)
  {
    var n := StrLen(text, offset);
    var slice := text[offset..offset + n + 1];
    assert forall k :: offset <= k <= offset + n ==> text[k] == slice[k - offset];
    assert forall k :: offset' <= k <= offset' + n ==> text'[k] == slice[k - offset'];
    StrLenIs(text', offset', n);
    assert StringAt(text', offset') == slice[..n];
    assert StringAt(text, offset) == slice[..n];
  }

  // ------------------------------------------------------- one block

  ghost predicate Shaped(b: Block) {
    && |b.entryType| == BLOCK_ENTRIES && |b.stringOffset| == BLOCK_ENTRIES && |b.text| == BLOCK_SIZE
    && 0 <= b.totalTextLength <= BLOCK_SIZE
  }

  predicate Used(b: Block, i: int)
    requires 0 <= i < |b.entryType|
  {
    b.entryType[i] != Free
  }

  /** The end of the text of an entry, its zero included. */
  function End(b: Block, i: int): int
    requires 0 <= i < |b.stringOffset| && 0 <= b.stringOffset[i]
  {
    b.stringOffset[i] + StrLen(b.text, b.stringOffset[i]) + 1
  }

  /** The text of an entry is a string below the text length. */
  ghost predicate Placed(b: Block, i: int)
    requires Shaped(b) && 0 <= i < BLOCK_ENTRIES
  {
    0 <= b.stringOffset[i] && End(b, i) <= b.totalTextLength
  }

  ghost predicate Apart(b: Block, i: int, j: int)
    requires Shaped(b) && 0 <= i < BLOCK_ENTRIES && 0 <= j < BLOCK_ENTRIES
    requires 0 <= b.stringOffset[i] && 0 <= b.stringOffset[j]
  {
    End(b, i) <= b.stringOffset[j] || End(b, j) <= b.stringOffset[i]
  }

  function FreeSlots(types: seq<Kind>): (n: nat) {
    if types == [] then 0 else (if types[0] == Free then 1 else 0) + FreeSlots(types[1..])
  }

  ghost predicate BlockInv(b: Block) {
    && Shaped(b)
    && (forall i :: 0 <= i < BLOCK_ENTRIES && Used(b, i) ==> Placed(b, i))
    && (forall i, j :: 0 <= i < j < BLOCK_ENTRIES && Used(b, i) && Used(b, j) ==> Apart(b, i, j))
    && 0 <= b.freeEntries <= FreeSlots(b.entryType)
  }

  function EmptyBlock(): Block {
    Block(BLOCK_ENTRIES, 0, false, seq(BLOCK_ENTRIES, _ => Free), seq(BLOCK_ENTRIES, _ => 0), seq(BLOCK_SIZE, _ => 0))
  }

  lemma {:induction false} AllFree(types: seq<Kind>)
    requires forall i :: 0 <= i < |types| ==> types[i] == Free
    ensures FreeSlots(types) == |types|
  {
    if types != [] {
      AllFree(types[1..]);
    }
  }

  lemma EmptyBlockInv()
    ensures BlockInv(EmptyBlock())
  {
    AllFree(EmptyBlock().entryType);
  }

  lemma {:induction false} SomeSlotIsFree(types: seq<Kind>)
    requires FreeSlots(types) > 0
    ensures exists i :: 0 <= i < |types| && types[i] == Free
  {
    if types[0] != Free {
      SomeSlotIsFree(types[1..]);
      var i :| 0 <= i < |types[1..]| && types[1..][i] == Free;
      assert types[i + 1] == Free;
    }
  }

  lemma {:induction false} ChangeSlot(types: seq<Kind>, i: nat, k: Kind)
    requires i < |types|
    ensures FreeSlots(types[i := k]) ==
      FreeSlots(types) - (if types[i] == Free then 1 else 0) + (if k == Free then 1 else 0)
  {
    if i == 0 {
      assert types[0 := k][1..] == types[1..];
    } else {
      ChangeSlot(types[1..], i - 1, k);
      assert types[i := k][1..] == types[1..][i - 1 := k];
    }
  }

  // ------------------------------------------------------- adding a string

  predicate HasRoom(b: Block, length: nat) {
    b.freeEntries > 0 && b.totalTextLength + length + 1 <= BLOCK_SIZE
  }

  function Stored(b: Block, i: nat, s: seq<Char>): Block
    requires |b.entryType| == |b.stringOffset| && i < |b.entryType|
    requires 0 <= b.totalTextLength && b.totalTextLength + |s| + 1 <= |b.text|
  {
    Block(b.freeEntries - 1, b.totalTextLength + |s| + 1, b.dirty,
          b.entryType[i := Allocated], b.stringOffset[i := b.totalTextLength],
          b.text[..b.totalTextLength] + s + [0] + b.text[b.totalTextLength + |s| + 1..])
  }

  /** The text of other entries is not touched. */
  lemma StoredOther(b: Block, i: nat, s: seq<Char>, j: nat)
    requires BlockInv(b) && i < BLOCK_ENTRIES && HasRoom(b, |s|) && j < BLOCK_ENTRIES && j != i && Used(b, j)
    ensures var c := Stored(b, i, s);
      && c.stringOffset[j] == b.stringOffset[j] && 0 <= b.stringOffset[j] <= BLOCK_SIZE
      && End(c, j) == End(b, j) && StringAt(c.text, c.stringOffset[j]) == StringAt(b.text, b.stringOffset[j])
  {
    var c := Stored(b, i, s);
    assert Placed(b, j);
    SameString(b.text, b.stringOffset[j], c.text, c.stringOffset[j]);
  }

  lemma StoredSelf(b: Block, i: nat, s: seq<Char>)
    requires BlockInv(b) && i < BLOCK_ENTRIES && HasRoom(b, |s|) && NoNul(s)
    ensures var c := Stored(b, i, s);
      && c.stringOffset[i] == b.totalTextLength
      && End(c, i) == c.totalTextLength && StringAt(c.text, c.stringOffset[i]) == s
  {
    var c := Stored(b, i, s);
    var at := b.totalTextLength;
    assert forall k :: at <= k < at + |s| ==> c.text[k] == s[k - at];
    StrLenIs(c.text, at, |s|);
  }

  lemma StoredInv(b: Block, i: nat, s: seq<Char>)
    requires BlockInv(b) && i < BLOCK_ENTRIES && !Used(b, i) && HasRoom(b, |s|) && NoNul(s)
    ensures BlockInv(Stored(b, i, s))
  {
    var c := Stored(b, i, s);
    hide StringAt, StrLen;
    ChangeSlot(b.entryType, i, Allocated);
    StoredSelf(b, i, s);
    forall j | 0 <= j < BLOCK_ENTRIES && Used(c, j) ensures Placed(c, j) {
      if j != i {
        assert Placed(b, j);
        StoredOther(b, i, s, j);
      }
    }
    forall j, k | 0 <= j < k < BLOCK_ENTRIES && Used(c, j) && Used(c, k) ensures Apart(c, j, k) {
      assert Placed(c, j) && Placed(c, k);
      StoredApart(b, i, s, j, k);
    }
  }

  lemma StoredApart(b: Block, i: nat, s: seq<Char>, j: nat, k: nat)
    requires BlockInv(b) && i < BLOCK_ENTRIES && !Used(b, i) && HasRoom(b, |s|) && NoNul(s) && j < k < BLOCK_ENTRIES
    requires var c := Stored(b, i, s);
      Shaped(c) && Used(c, j) && Used(c, k) && Placed(c, j) && Placed(c, k)
    ensures Apart(Stored(b, i, s), j, k)
  {
    hide StringAt, StrLen;
    StoredSelf(b, i, s);
    if j != i {
      assert Placed(b, j);
      StoredOther(b, i, s, j);
    }
    if k != i {
      assert Placed(b, k);
      StoredOther(b, i, s, k);
    }
    if j != i && k != i {
      assert Apart(b, j, k);
    }
  }

  // ------------------------------------------------------- deleting a string

  function Marked(b: Block, i: nat): Block
    requires i < |b.entryType|
  {
    b.(entryType := b.entryType[i := Deleted], dirty := true)
  }

  lemma MarkedInv(b: Block, i: nat)
    requires BlockInv(b) && i < BLOCK_ENTRIES && b.entryType[i] == Allocated
    ensures BlockInv(Marked(b, i))
  {
    hide StringAt, StrLen;
    var c := Marked(b, i);
    ChangeSlot(b.entryType, i, Deleted);
    forall j | 0 <= j < BLOCK_ENTRIES && Used(c, j) ensures Placed(c, j) {
      assert Placed(b, j);
    }
    forall j, k | 0 <= j < k < BLOCK_ENTRIES && Used(c, j) && Used(c, k) ensures Apart(c, j, k) {
      assert Placed(b, j) && Placed(b, k);
      assert Apart(b, j, k);
    }
  }

  // ------------------------------------------------------- freeing an entry

  /** The text with `size` characters at `at` taken out; the end is left as it was. */
  function Closed(text: seq<Char>, at: nat, size: nat): seq<Char>
    requires at + size <= |text|
  {
    text[..at] + text[at + size..] + text[|text| - size..]
  }

  function Shifted(b: Block, at: int, size: int, j: nat): int
    requires j < |b.entryType| && j < |b.stringOffset|
  {
    if b.entryType[j] != Free && b.stringOffset[j] > at then b.stringOffset[j] - size else b.stringOffset[j]
  }

  /** What a cleanup does to one marked entry. */
  function Freed(b: Block, i: nat): Block
    requires i < |b.entryType| == |b.stringOffset| && 0 <= b.stringOffset[i] && End(b, i) <= |b.text|
  {
    var at := b.stringOffset[i];
    var size := End(b, i) - at;
    var c := b.(entryType := b.entryType[i := Free]);
    c.(text := Closed(b.text, at, size),
       stringOffset := seq(|b.stringOffset|, j requires 0 <= j < |b.stringOffset| => Shifted(c, at, size, j)))
  }

  lemma ClosedBehind(text: seq<Char>, at: nat, size: nat, lo: nat, hi: nat)
    requires at + size <= lo <= hi <= |text|
    ensures |Closed(text, at, size)| == |text|
    ensures Closed(text, at, size)[lo - size..hi - size] == text[lo..hi]
  {
    var rest := text[at + size..];
    var front := text[..at] + rest;
    assert front[lo - size..hi - size] == rest[lo - size - at..hi - size - at];
    assert rest[lo - size - at..hi - size - at] == text[lo..hi];
    assert Closed(text, at, size) == front + text[|text| - size..];
  }

  lemma ClosedInFront(text: seq<Char>, at: nat, size: nat, lo: nat, hi: nat)
    requires at + size <= |text| && lo <= hi <= at
    ensures |Closed(text, at, size)| == |text|
    ensures Closed(text, at, size)[lo..hi] == text[lo..hi]
  {
  }

  /** Used entries are apart; one that starts behind another starts behind its end. */
  lemma Separated(b: Block, i: nat, j: nat)
    requires BlockInv(b) && i < BLOCK_ENTRIES && Used(b, i) && j < BLOCK_ENTRIES && j != i && Used(b, j)
    ensures Placed(b, i) && Placed(b, j) && Apart(b, i, j)
    ensures b.stringOffset[j] > b.stringOffset[i] ==> b.stringOffset[j] >= End(b, i)
  {
    hide StrLen;
    assert Placed(b, i) && Placed(b, j);
    if i < j {
      assert Apart(b, i, j);
    } else {
      assert Apart(b, j, i);
    }
  }

  lemma FreedShape(b: Block, i: nat, j: nat)
    requires Shaped(b) && i < BLOCK_ENTRIES && j < BLOCK_ENTRIES && j != i && Used(b, j) && Placed(b, i)
    ensures var c, at := Freed(b, i), b.stringOffset[i];
      && c.text == Closed(b.text, at, End(b, i) - at) && |c.stringOffset| == BLOCK_ENTRIES
      && c.stringOffset[j] == if b.stringOffset[j] > at then b.stringOffset[j] - (End(b, i) - at) else b.stringOffset[j]
  {
    hide Closed, StrLen;
  }

  /** Other entries keep their strings, wherever the text of `i` was. */
  lemma FreedOther(b: Block, i: nat, j: nat)
    requires Shaped(b) && i < BLOCK_ENTRIES && j < BLOCK_ENTRIES && j != i && Used(b, j)
    requires Placed(b, i) && Placed(b, j) && Apart(b, i, j)
    ensures var c := Freed(b, i);
      && |c.text| == BLOCK_SIZE && |c.stringOffset| == BLOCK_ENTRIES
      && c.stringOffset[j] ==
           (if b.stringOffset[j] > b.stringOffset[i] then b.stringOffset[j] - (End(b, i) - b.stringOffset[i]) else b.stringOffset[j])
      && 0 <= c.stringOffset[j] <= BLOCK_SIZE
      && End(c, j) - c.stringOffset[j] == End(b, j) - b.stringOffset[j]
      && StringAt(c.text, c.stringOffset[j]) == StringAt(b.text, b.stringOffset[j])
  {
    hide Closed, StrLen, StringAt, Freed;
    FreedShape(b, i, j);
    var c := Freed(b, i);
    var at, size, off := b.stringOffset[i], End(b, i) - b.stringOffset[i], b.stringOffset[j];
    var n := StrLen(b.text, off);
    if off > at {
      ClosedBehind(b.text, at, size, off, off + n + 1);
      SameString(b.text, off, c.text, off - size);
    } else {
      ClosedInFront(b.text, at, size, off, off + n + 1);
      SameString(b.text, off, c.text, off);
    }
  }

  lemma FreedInv(b: Block, i: nat)
    requires BlockInv(b) && i < BLOCK_ENTRIES && b.entryType[i] == Deleted
    ensures Placed(b, i) && BlockInv(Freed(b, i))
  {
    hide StringAt, StrLen, Closed;
    assert Placed(b, i);
    var c := Freed(b, i);
    ChangeSlot(b.entryType, i, Free);
    ClosedLength(b.text, b.stringOffset[i], End(b, i) - b.stringOffset[i]);
    forall j | 0 <= j < BLOCK_ENTRIES && Used(c, j) ensures Placed(c, j) {
      Separated(b, i, j);
      FreedOther(b, i, j);
    }
    forall j, k | 0 <= j < k < BLOCK_ENTRIES && Used(c, j) && Used(c, k) ensures Apart(c, j, k) {
      assert Placed(c, j) && Placed(c, k);
      Separated(b, i, j);
      Separated(b, i, k);
      Separated(b, j, k);
      FreedOther(b, i, j);
      FreedOther(b, i, k);
    }
  }

  lemma ClosedLength(text: seq<Char>, at: nat, size: nat)
    requires at + size <= |text|
    ensures |Closed(text, at, size)| == |text|
  {
  }

  // ------------------------------------------------------- cleaning a block

  function CleanEntry(b: Block, i: nat): Block
    requires BlockInv(b) && i < BLOCK_ENTRIES
  {
    if b.entryType[i] == Deleted then assert Placed(b, i); Freed(b, i) else b
  }

  /** The entry as a caller sees it. */
  function Lookup(b: Block, i: nat): Option<seq<Char>>
    requires BlockInv(b) && i < BLOCK_ENTRIES
  {
    if b.entryType[i] == Allocated then
      assert Placed(b, i);
      Some(StringAt(b.text, b.stringOffset[i]))
    else None
  }

  lemma CleanEntryKeeps(b: Block, i: nat)
    requires BlockInv(b) && i < BLOCK_ENTRIES
    ensures BlockInv(CleanEntry(b, i))
    ensures forall j :: 0 <= j < BLOCK_ENTRIES ==> Lookup(CleanEntry(b, i), j) == Lookup(b, j)
    ensures CleanEntry(b, i).totalTextLength == b.totalTextLength && CleanEntry(b, i).freeEntries == b.freeEntries
  {
    hide StringAt, StrLen, Closed;
    if b.entryType[i] == Deleted {
      FreedInv(b, i);
      forall j | 0 <= j < BLOCK_ENTRIES ensures Lookup(CleanEntry(b, i), j) == Lookup(b, j) {
        FreedLookup(b, i, j);
      }
    }
  }

  lemma FreedLookup(b: Block, i: nat, j: nat)
    requires BlockInv(b) && i < BLOCK_ENTRIES && j < BLOCK_ENTRIES && b.entryType[i] == Deleted
    requires Placed(b, i) && BlockInv(Freed(b, i))
    ensures Lookup(Freed(b, i), j) == Lookup(b, j)
  {
    hide StringAt, StrLen, Closed;
    if b.entryType[j] == Allocated {
      Separated(b, i, j);
      FreedOther(b, i, j);
    }
  }

  function CleanFrom(b: Block, i: nat): (r: Block)
    requires BlockInv(b) && i <= BLOCK_ENTRIES
    ensures BlockInv(r)
    ensures forall j :: 0 <= j < BLOCK_ENTRIES ==> Lookup(r, j) == Lookup(b, j)
    ensures r.freeEntries == b.freeEntries && r.totalTextLength == b.totalTextLength
    decreases BLOCK_ENTRIES - i
  {
    if i == BLOCK_ENTRIES then b
    else
      CleanEntryKeeps(b, i);
      CleanFrom(CleanEntry(b, i), i + 1)
  }

  function Cleaned(b: Block): (r: Block)
    requires BlockInv(b)
    ensures BlockInv(r)
    ensures forall j :: 0 <= j < BLOCK_ENTRIES ==> Lookup(r, j) == Lookup(b, j)
  {
    if b.dirty then CleanFrom(b, 0) else b
  }

  // ------------------------------------------------------- the table

  ghost predicate TableInv(t: seq<Block>) {
    forall i :: 0 <= i < |t| ==> BlockInv(t[i])
  }

  /** The string of a handle, if it is live. */
  function Get(t: seq<Block>, number: nat): Option<seq<Char>>
    requires TableInv(t)
  {
    if number == 0 then None
    else
      var block, entry := (number - 1) / BLOCK_ENTRIES, (number - 1) % BLOCK_ENTRIES;
      if block < |t| then Lookup(t[block], entry) else None
  }

  function Handle(block: nat, entry: nat): (r: nat)
    ensures entry < BLOCK_ENTRIES ==>
      r > 0 && (r - 1) / BLOCK_ENTRIES == block && (r - 1) % BLOCK_ENTRIES == entry
  {
    1 + block * BLOCK_ENTRIES + entry
  }

  /** The first block with room for a string, or the number of blocks. */
  function FirstRoom(t: seq<Block>, length: nat): (k: nat)
    ensures k <= |t| && (k < |t| ==> HasRoom(t[k], length))
    ensures forall i :: 0 <= i < k ==> !HasRoom(t[i], length)
  {
    if t == [] then 0
    else if HasRoom(t[0], length) then 0
    else 1 + FirstRoom(t[1..], length)
  }

  function FirstFree(types: seq<Kind>): (k: nat)
    ensures k <= |types| && (k < |types| ==> types[k] == Free)
    ensures forall i :: 0 <= i < k ==> types[i] != Free
  {
    if types == [] then 0
    else if types[0] == Free then 0
    else 1 + FirstFree(types[1..])
  }

  /** The table after a string has been added, and the handle; 0 is no handle. */
  function Added(t: seq<Block>, s: seq<Char>): (r: (seq<Block>, nat))
    requires TableInv(t)
  {
    if |s| == 0 || |s| + 1 > BLOCK_SIZE then (t, 0)
    else
      var k := FirstRoom(t, |s|);
      var t1 := if k == |t| then t + [EmptyBlock()] else t;
      var i := FirstFree(t1[k].entryType);
      EmptyBlockInv();
      if i >= BLOCK_ENTRIES then (t1, 0)
      else (t1[k := Stored(t1[k], i, s)], Handle(k, i))
  }

  function DeletedFrom(t: seq<Block>, number: nat): (r: seq<Block>)
    requires TableInv(t)
  {
    if number == 0 then t
    else
      var block, entry := (number - 1) / BLOCK_ENTRIES, (number - 1) % BLOCK_ENTRIES;
      if block < |t| && t[block].entryType[entry] == Allocated then t[block := Marked(t[block], entry)] else t
  }

  function CleanedTable(t: seq<Block>): (r: seq<Block>)
    requires TableInv(t)
    ensures |r| == |t|
  {
    seq(|t|, i requires 0 <= i < |t| => Cleaned(t[i]))
  }

  /** Different handles differ in the block or in the entry. */
  lemma OtherEntry(n: nat, h: nat)
    requires n != h && h > 0
    ensures n > 0 && (n - 1) / BLOCK_ENTRIES == (h - 1) / BLOCK_ENTRIES ==> (n - 1) % BLOCK_ENTRIES != (h - 1) % BLOCK_ENTRIES
  {
  }

  /** Replacing one block changes only what its entries changed. */
  lemma BlockReplaced(t: seq<Block>, k: nat, b: Block, h: nat)
    requires TableInv(t) && k < |t| && BlockInv(b) && h > 0 && (h - 1) / BLOCK_ENTRIES == k
    requires forall j :: 0 <= j < BLOCK_ENTRIES && j != (h - 1) % BLOCK_ENTRIES ==> Lookup(b, j) == Lookup(t[k], j)
    ensures TableInv(t[k := b])
    ensures Get(t[k := b], h) == Lookup(b, (h - 1) % BLOCK_ENTRIES)
    ensures forall n :: n != h ==> Get(t[k := b], n) == Get(t, n)
  {
    hide BlockInv, Lookup;
    var u := t[k := b];
    forall n: nat | n != h ensures Get(u, n) == Get(t, n) {
      OtherEntry(n, h);
    }
  }

  lemma StoredLookup(b: Block, i: nat, s: seq<Char>)
    requires BlockInv(b) && i < BLOCK_ENTRIES && !Used(b, i) && HasRoom(b, |s|) && NoNul(s)
    ensures var c := Stored(b, i, s);
      && BlockInv(c) && Lookup(c, i) == Some(s) && Lookup(b, i) == None
      && (forall j :: 0 <= j < BLOCK_ENTRIES && j != i ==> Lookup(c, j) == Lookup(b, j))
  {
    hide StringAt, StrLen;
    StoredInv(b, i, s);
    StoredSelf(b, i, s);
    var c := Stored(b, i, s);
    forall j | 0 <= j < BLOCK_ENTRIES && j != i ensures Lookup(c, j) == Lookup(b, j) {
      if b.entryType[j] == Allocated {
        StoredOther(b, i, s, j);
      }
    }
  }

  /** Adding an empty block changes no string. */
  lemma BlockAppended(t: seq<Block>)
    requires TableInv(t)
    ensures TableInv(t + [EmptyBlock()])
    ensures forall n :: Get(t + [EmptyBlock()], n) == Get(t, n)
  {
    hide BlockInv;
    EmptyBlockInv();
    EmptyLookup();
  }

  lemma EmptyLookup()
    ensures BlockInv(EmptyBlock()) && forall j :: 0 <= j < BLOCK_ENTRIES ==> Lookup(EmptyBlock(), j) == None
  {
    EmptyBlockInv();
  }

  /** A string that is neither empty nor too long gets a handle that was not in use,
      a free slot is always found, and no other handle is affected. */
  lemma AddedKeeps(t: seq<Block>, s: seq<Char>)
    requires TableInv(t) && NoNul(s)
    ensures var (u, h) := Added(t, s);
      && TableInv(u)
      && (h == 0 <==> |s| == 0 || |s| + 1 > BLOCK_SIZE)
      && (h == 0 ==> u == t)
      && (h > 0 ==> Get(t, h) == None && Get(u, h) == Some(s))
      && (forall n :: n != h ==> Get(u, n) == Get(t, n))
  {
    if !(|s| == 0 || |s| + 1 > BLOCK_SIZE) {
      hide Lookup, Get, Stored, FreeSlots;
      var k := FirstRoom(t, |s|);
      var t1 := if k == |t| then t + [EmptyBlock()] else t;
      if k == |t| {
        BlockAppended(t);
      }
      assert BlockInv(t1[k]);
      SomeSlotIsFree(t1[k].entryType);
      var i := FirstFree(t1[k].entryType);
      StoredLookup(t1[k], i, s);
      BlockReplaced(t1, k, Stored(t1[k], i, s), Handle(k, i));
      GetIsLookup(t1, k, i);
    }
  }

  /** The string goes into the first block with room and its first free entry; there is
      a new block only when none has room. */
  lemma AddedFirst(t: seq<Block>, s: seq<Char>)
    requires TableInv(t) && NoNul(s) && Added(t, s).1 > 0
    ensures var (u, h) := Added(t, s);
      var k, i := (h - 1) / BLOCK_ENTRIES, (h - 1) % BLOCK_ENTRIES;
      && k <= |t| && |u| == (if k < |t| then |t| else |t| + 1)
      && (forall j :: 0 <= j < k ==> t[j].freeEntries == 0 || t[j].totalTextLength + |s| + 1 > BLOCK_SIZE)
      && (forall j :: 0 <= j < i && k < |t| ==> t[k].entryType[j] != Free) && (k == |t| ==> i == 0)
  {
    hide StrLen, FreeSlots;
    forall j | 0 <= j < |t| ensures BlockInv(t[j]) {
    }
  }

  lemma GetIsLookup(t: seq<Block>, k: nat, i: nat)
    requires TableInv(t) && k < |t| && i < BLOCK_ENTRIES
    ensures Get(t, Handle(k, i)) == Lookup(t[k], i)
  {
  }

  /** Deleting a handle makes it dead and affects no other. */
  lemma DeletedKeeps(t: seq<Block>, number: nat)
    requires TableInv(t)
    ensures var u := DeletedFrom(t, number);
      && TableInv(u) && Get(u, number) == None
      && (forall n :: n != number ==> Get(u, n) == Get(t, n))
  {
    if number > 0 {
      hide StringAt, StrLen;
      var block, entry := (number - 1) / BLOCK_ENTRIES, (number - 1) % BLOCK_ENTRIES;
      if block < |t| && t[block].entryType[entry] == Allocated {
        MarkedInv(t[block], entry);
        BlockReplaced(t, block, Marked(t[block], entry), number);
      }
    }
  }

  /** A cleanup affects no live handle. */
  lemma CleanedKeeps(t: seq<Block>)
    requires TableInv(t)
    ensures TableInv(CleanedTable(t))
    ensures forall n :: Get(CleanedTable(t), n) == Get(t, n)
  {
    hide BlockInv, Lookup, Cleaned;
  }

  // ------------------------------------------------------- whole runs

  datatype Op = OpAdd(s: seq<Char>) | OpDelete(number: nat) | OpCleanup

  function Do(t: seq<Block>, op: Op): seq<Block>
    requires TableInv(t)
  {
    match op
    case OpAdd(s) => Added(t, s).0
    case OpDelete(number) => DeletedFrom(t, number)
    case OpCleanup => CleanedTable(t)
  }

  /** What a caller expects: a plain map from live handles to strings. */
  function Expect(t: seq<Block>, live: map<nat, seq<Char>>, op: Op): map<nat, seq<Char>>
    requires TableInv(t)
  {
    match op
    case OpAdd(s) => if Added(t, s).1 == 0 then live else live[Added(t, s).1 := s]
    case OpDelete(number) => live - {number}
    case OpCleanup => live
  }

  ghost predicate Agrees(t: seq<Block>, live: map<nat, seq<Char>>)
    requires TableInv(t)
  {
    forall n :: Get(t, n) == if n in live then Some(live[n]) else None
  }

  ghost predicate OpOk(op: Op) {
    op.OpAdd? ==> NoNul(op.s)
  }

  lemma DoAgrees(t: seq<Block>, live: map<nat, seq<Char>>, op: Op)
    requires TableInv(t) && Agrees(t, live) && OpOk(op)
    ensures TableInv(Do(t, op)) && Agrees(Do(t, op), Expect(t, live, op))
  {
    hide Get, TableInv, Added, DeletedFrom, CleanedTable;
    match op
    case OpAdd(s) => AddedKeeps(t, s);
    case OpDelete(number) => DeletedKeeps(t, number);
    case OpCleanup => CleanedKeeps(t);
  }

  /** The table and the expected map after a run: over every run each live handle
      yields exactly the string it was created with, and dead handles yield none. */
  ghost function After(ops: seq<Op>): (r: (seq<Block>, map<nat, seq<Char>>))
    requires forall i :: 0 <= i < |ops| ==> OpOk(ops[i])
    ensures TableInv(r.0) && Agrees(r.0, r.1)
    decreases |ops|
  {
    if ops == [] then
      NothingAgrees();
      ([], map[])
    else
      var (t, live) := After(ops[..|ops| - 1]);
      var op := ops[|ops| - 1];
      DoAgrees(t, live, op);
      (Do(t, op), Expect(t, live, op))
  }

  lemma NothingAgrees()
    ensures TableInv([]) && Agrees([], map[])
  {
  }

  // ------------------------------------------------------- what a cleanup frees

  /** A block with a deleted entry will be cleaned. */
  ghost predicate Tidy(b: Block)
    requires |b.entryType| == BLOCK_ENTRIES
  {
    forall i :: 0 <= i < BLOCK_ENTRIES && b.entryType[i] == Deleted ==> b.dirty
  }

  lemma DoTidy(t: seq<Block>, op: Op)
    requires TableInv(t) && OpOk(op) && TableInv(Do(t, op)) && forall k :: 0 <= k < |t| ==> Tidy(t[k])
    ensures forall k :: 0 <= k < |Do(t, op)| ==> Tidy(Do(t, op)[k])
  {
    hide FirstFree, FirstRoom, StrLen, Closed, FreeSlots, CleanFrom;
    forall k | 0 <= k < |Do(t, op)| ensures Tidy(Do(t, op)[k]) {
      if op.OpCleanup? {
        CleanedHasNone(t[k]);
      }
    }
  }

  lemma {:induction false} AfterIsTidy(ops: seq<Op>)
    requires forall i :: 0 <= i < |ops| ==> OpOk(ops[i])
    ensures forall k :: 0 <= k < |After(ops).0| ==> Tidy(After(ops).0[k])
    decreases |ops|
  {
    hide Do, BlockInv, Tidy, Get, Expect;
    if ops != [] {
      var before := ops[..|ops| - 1];
      AfterIsTidy(before);
      DoAgrees(After(before).0, After(before).1, ops[|ops| - 1]);
      DoTidy(After(before).0, ops[|ops| - 1]);
    }
  }

  /** Cleaning a block frees what is deleted and nothing else. */
  lemma {:induction false} CleanFromFrees(b: Block, i: nat)
    requires BlockInv(b) && i <= BLOCK_ENTRIES
    ensures forall j :: 0 <= j < BLOCK_ENTRIES ==>
      CleanFrom(b, i).entryType[j] == if i <= j && b.entryType[j] == Deleted then Free else b.entryType[j]
    decreases BLOCK_ENTRIES - i
  {
    hide StrLen, Closed, BlockInv, Lookup, CleanEntry;
    if i < BLOCK_ENTRIES {
      CleanEntryKeeps(b, i);
      CleanEntryFrees(b, i);
      CleanFromFrees(CleanEntry(b, i), i + 1);
    }
  }

  lemma CleanEntryFrees(b: Block, i: nat)
    requires BlockInv(b) && i < BLOCK_ENTRIES
    ensures |CleanEntry(b, i).entryType| == |b.entryType| == BLOCK_ENTRIES
    ensures forall j :: 0 <= j < BLOCK_ENTRIES ==>
      CleanEntry(b, i).entryType[j] == if j == i && b.entryType[i] == Deleted then Free else b.entryType[j]
  {
    hide StrLen, Closed;
  }

  lemma CleanedHasNone(b: Block)
    requires BlockInv(b) && Tidy(b)
    ensures forall j :: 0 <= j < BLOCK_ENTRIES ==>
      Cleaned(b).entryType[j] == if b.entryType[j] == Deleted then Free else b.entryType[j]
  {
    hide StrLen, Closed, CleanFrom;
    CleanFromFrees(b, 0);
  }

  /** Right after a cleanup an entry can be given out again unless its handle is live. */
  lemma CleanupFrees(ops: seq<Op>, k: nat, i: nat)
    requires ops != [] && ops[|ops| - 1] == OpCleanup && forall i :: 0 <= i < |ops| ==> OpOk(ops[i])
    requires k < |After(ops).0| && i < BLOCK_ENTRIES
    ensures After(ops).0[k].entryType[i] == if Handle(k, i) in After(ops).1 then Allocated else Free
  {
    var before := After(ops[..|ops| - 1]).0;
    AfterIsTidy(ops[..|ops| - 1]);
    CleanedHasNone(before[k]);
    GetIsLookup(After(ops).0, k, i);
  }

  // ------------------------------------------------------- what a block takes in its lifetime

  /** How many strings, and how many characters with their zeros, a step stores in a block. */
  ghost function Taken(t: seq<Block>, op: Op, k: nat): (r: (nat, nat))
    requires TableInv(t)
  {
    if op.OpAdd? && Added(t, op.s).1 > 0 && (Added(t, op.s).1 - 1) / BLOCK_ENTRIES == k then (1, |op.s| + 1) else (0, 0)
  }

  /** The same over a run. */
  ghost function TakenAll(ops: seq<Op>, k: nat): (r: (nat, nat))
    requires forall i :: 0 <= i < |ops| ==> OpOk(ops[i])
    decreases |ops|
  {
    if ops == [] then (0, 0)
    else
      var before := ops[..|ops| - 1];
      var (n, m) := TakenAll(before, k);
      var (dn, dm) := Taken(After(before).0, ops[|ops| - 1], k);
      (n + dn, m + dm)
  }

  /** The counters of a block, those of an empty one where there is none yet. */
  function Counters(t: seq<Block>, k: nat): (int, int) {
    if k < |t| then (t[k].freeEntries, t[k].totalTextLength) else (BLOCK_ENTRIES, 0)
  }

  lemma StepCounts(t: seq<Block>, op: Op, k: nat)
    requires TableInv(t) && OpOk(op)
    ensures var (n, m) := Taken(t, op, k);
      Counters(Do(t, op), k) == (Counters(t, k).0 - n, Counters(t, k).1 + m)
  {
    hide BlockInv, Lookup, FirstFree, FirstRoom, FreeSlots;
    match op
    case OpAdd(s) => AddCounts(t, s, k);
    case OpDelete(number) =>
    case OpCleanup =>
  }

  lemma AddCounts(t: seq<Block>, s: seq<Char>, k: nat)
    requires TableInv(t) && NoNul(s)
    ensures var (n, m) := Taken(t, OpAdd(s), k);
      Counters(Added(t, s).0, k) == (Counters(t, k).0 - n, Counters(t, k).1 + m)
  {
    hide BlockInv, FirstFree, FreeSlots;
    AddedKeeps(t, s);
    var b := FirstRoom(t, |s|);
    EmptyBlockInv();
    if Added(t, s).1 > 0 {
      var t1 := if b == |t| then t + [EmptyBlock()] else t;
      assert (Added(t, s).1 - 1) / BLOCK_ENTRIES == b;
    }
  }

  /**
    Since a cleanup never gives entries or text back, a block stores at most 256
    strings and 32768 characters in its lifetime, whatever is deleted and cleaned.
  */
  lemma {:induction false} LifetimeLimits(ops: seq<Op>, k: nat)
    requires forall i :: 0 <= i < |ops| ==> OpOk(ops[i])
    ensures Counters(After(ops).0, k) == (BLOCK_ENTRIES - TakenAll(ops, k).0, TakenAll(ops, k).1)
    ensures TakenAll(ops, k).0 <= BLOCK_ENTRIES && TakenAll(ops, k).1 <= BLOCK_SIZE
    decreases |ops|
  {
    hide Taken, Do, FreeSlots;
    if ops != [] {
      var before := ops[..|ops| - 1];
      LifetimeLimits(before, k);
      StepCounts(After(before).0, ops[|ops| - 1], k);
    }
    var t := After(ops).0;
    assert k < |t| ==> BlockInv(t[k]);
  }
}
