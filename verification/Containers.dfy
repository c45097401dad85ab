/** The auto-growing vector: an array for an index range that may start anywhere
    and grows, at either end, to include every index that is asked for. */
module Vectors {

  class Vector<T(0)> {
    var min: int
    var max: int
    var start: int
    var space: int
    const block: int
    const initialized: bool
    const init: T
    var entry: array<T>

    ghost predicate Valid()
      reads this
    {
      && 1 <= space == entry.Length && 0 <= block
      && start <= min <= max + 1 && max < start + space
    }

    /** The element at an index of the range. */
    ghost function Value(i: int): T
      requires Valid() && min <= i <= max
      reads this, entry
    {
      entry[i - start]
    }

    constructor (min: int, max: int, block: int, initialized: bool, init: T)
      requires min <= max + 1
      ensures Valid() && fresh(entry)
      ensures this.start == min && this.min == min && this.max == max && this.initialized == initialized && this.init == init
      ensures initialized ==> forall i :: min <= i <= max ==> Value(i) == init
    {
      var size := if max - min + 1 < 1 then 1 else max - min + 1;
      var e := new T[size];
      if initialized {
        for i := 0 to size
          invariant forall j :: 0 <= j < i ==> e[j] == init
        {
          e[i] := init;
        }
      }
      this.min, this.max, this.start, this.space := min, max, min, size;
      this.block := if block < 0 then 0 else block;
      this.initialized, this.init, this.entry := initialized, init, e;
    }

    /** Replaces the array by a larger one with `shift` new cells in front. */
    method Reallocate(increment: nat, shift: nat)
      requires Valid() && shift <= increment
      modifies this`entry, this`start, this`space
      ensures Valid() && fresh(entry) && space == old(space) + increment && start == old(start) - shift
      ensures forall i :: min <= i <= max ==> Value(i) == old(Value(i))
    {
      var e := new T[space + increment];
      var i := min;
      while i <= max
        invariant min <= i <= max + 1
        invariant forall p :: min - start <= p < i - start ==> e[p + shift] == entry[p]
        modifies e
      {
        e[i - start + shift] := entry[i - start];
        i := i + 1;
      }
      entry := e;
      start := start - shift;
      space := space + increment;
    }

    /** Makes the array reach down and up to an index. */
    method MakeRoom(index: int)
      requires Valid()
      modifies this`entry, this`start, this`space
      ensures Valid() && (entry == old(entry) || fresh(entry))
      ensures start <= index < start + space
      ensures old(start) <= index ==> start == old(start)
      ensures old(start) <= index < old(start) + old(space) ==> entry == old(entry) && space == old(space)
      ensures forall i :: min <= i <= max ==> Value(i) == old(Value(i))
    {
      while index < start
        invariant Valid() && (entry == old(entry) || fresh(entry))
        invariant old(start) <= index ==> start == old(start) && space == old(space) && entry == old(entry)
        invariant forall i :: min <= i <= max ==> Value(i) == old(Value(i))
        decreases start - index
      {
        var increment := if block == 0 then space else block;
        Reallocate(increment, increment);
      }
      while index >= start + space
        invariant Valid() && (entry == old(entry) || fresh(entry))
        invariant start <= index && (old(start) <= index ==> start == old(start))
        invariant old(start) <= index < old(start) + old(space) ==> entry == old(entry) && space == old(space)
        invariant forall i :: min <= i <= max ==> Value(i) == old(Value(i))
        decreases index - (start + space)
      {
        var increment := if block == 0 then space else block;
        Reallocate(increment, 0);
      }
    }

    /** Makes the range reach down and up to an index that the array covers. */
    method Extend(index: int)
      requires Valid() && start <= index < start + space
      modifies this`min, this`max, entry
      ensures Valid()
      ensures min == (if index < old(min) then index else old(min))
      ensures max == (if index > old(max) then index else old(max))
      ensures forall i :: old(min) <= i <= old(max) ==> Value(i) == old(Value(i))
      ensures initialized ==> forall i :: min <= i <= max && !(old(min) <= i <= old(max)) ==> Value(i) == init
    {
      while index < min
        invariant Valid() && max == old(max) && min <= old(min) && (min == old(min) || index <= min)
        invariant forall p :: old(min) - start <= p <= max - start ==> entry[p] == old(entry[p])
        invariant initialized ==> forall p :: min - start <= p < old(min) - start ==> entry[p] == init
        decreases min - index
      {
        min := min - 1;
        if initialized {
          entry[min - start] := init;
        }
      }
      while index > max
        invariant Valid() && max >= old(max) && (max == old(max) || max <= index)
        invariant min == (if index < old(min) then index else old(min))
        invariant forall p :: old(min) - start <= p <= old(max) - start ==> entry[p] == old(entry[p])
        invariant initialized ==> forall p :: min - start <= p < old(min) - start ==> entry[p] == init
        invariant initialized ==> forall p :: old(max) - start < p <= max - start ==> entry[p] == init
        decreases index - max
      {
        max := max + 1;
        if initialized {
          entry[max - start] := init;
        }
      }
    }

    /** Makes the range include an index and returns its place in the array. */
    method At(index: int) returns (place: nat)
      requires Valid()
      modifies this, entry
      ensures Valid() && (entry == old(entry) || fresh(entry))
      ensures min == (if index < old(min) then index else old(min))
      ensures max == (if index > old(max) then index else old(max))
      ensures forall i :: old(min) <= i <= old(max) ==> Value(i) == old(Value(i))
      ensures initialized ==> forall i :: min <= i <= max && !(old(min) <= i <= old(max)) ==> Value(i) == init
      ensures old(start) <= index ==> start == old(start)
      ensures old(start) <= index < old(start) + old(space) ==> entry == old(entry) && space == old(space)
      ensures place == index - start && place < entry.Length
    {
      MakeRoom(index);
      Extend(index);
      place := index - start;
    }
  }
}

/** Binary heaps as sequences; positions count from one. */
module Heaps {

  datatype Entry = Entry(key: nat, data: nat)

  function Key(s: seq<Entry>, i: nat): nat
    requires 1 <= i <= |s|
  {
    s[i - 1].key
  }

  ghost predicate IsHeap(s: seq<Entry>) {
    forall i :: 2 <= i <= |s| ==> Key(s, i / 2) <= Key(s, i)
  }

  function Swap(s: seq<Entry>, i: nat, j: nat): (r: seq<Entry>)
    requires 1 <= i <= |s| && 1 <= j <= |s|
    ensures |r| == |s|
  {
    s[i - 1 := s[j - 1]][j - 1 := s[i - 1]]
  }

  lemma SwapInFront(s: seq<Entry>, i: nat, j: nat, n: nat)
    requires 1 <= i <= n && 1 <= j <= n <= |s|
    ensures Swap(s, i, j)[..n] == Swap(s[..n], i, j)
  {
  }

  lemma SwapKeepsEntries(s: seq<Entry>, i: nat, j: nat)
    requires 1 <= i <= |s| && 1 <= j <= |s|
    ensures multiset(Swap(s, i, j)) == multiset(s)
  {
  }

  // ------------------------------------------------------------ moving up

  /** Moves the entry at `i` up until its parent is not larger. */
  function SiftUp(s: seq<Entry>, i: nat): (r: seq<Entry>)
    requires 1 <= i <= |s|
    ensures |r| == |s|
    decreases i
  {
    if i > 1 && Key(s, i / 2) > Key(s, i) then SiftUp(Swap(s, i, i / 2), i / 2) else s
  }

  /** Heap order everywhere except between `i` and its parent. */
  ghost predicate HeapExceptAbove(s: seq<Entry>, i: nat)
    requires 1 <= i <= |s|
  {
    && (forall j :: 2 <= j <= |s| && j != i ==> Key(s, j / 2) <= Key(s, j))
    && (forall j :: 2 <= j <= |s| && j / 2 == i && i > 1 ==> Key(s, i / 2) <= Key(s, j))
  }

  /** A swap with the parent moves the exception up. */
  lemma SwapUp(s: seq<Entry>, i: nat)
    requires 2 <= i <= |s| && HeapExceptAbove(s, i) && Key(s, i / 2) > Key(s, i)
    ensures HeapExceptAbove(Swap(s, i, i / 2), i / 2)
  {
    var t, p := Swap(s, i, i / 2), i / 2;
    forall j | 2 <= j <= |t| && j != p ensures Key(t, j / 2) <= Key(t, j) {
      assert j != i ==> Key(s, j / 2) <= Key(s, j);
    }
  }

  lemma {:induction false} SiftUpMakesHeap(s: seq<Entry>, i: nat)
    requires 1 <= i <= |s| && HeapExceptAbove(s, i)
    ensures IsHeap(SiftUp(s, i))
    ensures multiset(SiftUp(s, i)) == multiset(s)
    decreases i
  {
    if i > 1 && Key(s, i / 2) > Key(s, i) {
      var t := Swap(s, i, i / 2);
      SwapKeepsEntries(s, i, i / 2);
      SwapUp(s, i);
      SiftUpMakesHeap(t, i / 2);
    }
  }

  // ---------------------------------------------------------- moving down

  /** The smaller child of `i`, the left one of equal children. */
  function SmallerChild(s: seq<Entry>, i: nat): (c: nat)
    requires 1 <= i && 2 * i <= |s|
    ensures c / 2 == i && i < c <= |s|
    ensures forall j :: 2 <= j <= |s| && j / 2 == i ==> Key(s, c) <= Key(s, j)
  {
    if 2 * i + 1 <= |s| && Key(s, 2 * i + 1) < Key(s, 2 * i) then 2 * i + 1 else 2 * i
  }

  /** Moves the entry at `i` down until its children are not smaller. */
  function SiftDown(s: seq<Entry>, i: nat): (r: seq<Entry>)
    requires 1 <= i
    ensures |r| == |s|
    decreases |s| - i
  {
    if 2 * i > |s| then s
    else
      var c := SmallerChild(s, i);
      if Key(s, i) <= Key(s, c) then s else SiftDown(Swap(s, i, c), c)
  }

  /** Heap order everywhere except between `i` and its children. */
  ghost predicate HeapExceptBelow(s: seq<Entry>, i: nat)
    requires 1 <= i
  {
    && (forall j :: 2 <= j <= |s| && j / 2 != i ==> Key(s, j / 2) <= Key(s, j))
    && (forall j :: 2 <= j <= |s| && j / 2 == i && i > 1 ==> Key(s, i / 2) <= Key(s, j))
  }

  /** A swap with the smaller child moves the exception down. */
  lemma SwapDown(s: seq<Entry>, i: nat)
    requires 1 <= i && 2 * i <= |s| && HeapExceptBelow(s, i) && Key(s, i) > Key(s, SmallerChild(s, i))
    ensures HeapExceptBelow(Swap(s, i, SmallerChild(s, i)), SmallerChild(s, i))
  {
    var c := SmallerChild(s, i);
    var t := Swap(s, i, c);
    forall j | 2 <= j <= |t| && j / 2 != c ensures Key(t, j / 2) <= Key(t, j) {
      assert j / 2 != i ==> Key(s, j / 2) <= Key(s, j);
      assert j / 2 == i ==> Key(s, c) <= Key(s, j);
    }
  }

  /** An entry without children stays where it is. */
  lemma SiftDownEnds(s: seq<Entry>, i: nat)
    requires 1 <= i && i * 2 > |s|
    ensures SiftDown(s, i) == s
  {
  }

  lemma {:induction false} SiftDownMakesHeap(s: seq<Entry>, i: nat)
    requires 1 <= i && HeapExceptBelow(s, i)
    ensures IsHeap(SiftDown(s, i))
    ensures multiset(SiftDown(s, i)) == multiset(s)
    decreases |s| - i
  {
    if 2 * i <= |s| {
      var c := SmallerChild(s, i);
      if Key(s, i) > Key(s, c) {
        var t := Swap(s, i, c);
        SwapKeepsEntries(s, i, c);
        SwapDown(s, i);
        SiftDownMakesHeap(t, c);
      }
    }
  }

  // ------------------------------------------------------- whole operations

  function Inserted(s: seq<Entry>, e: Entry): (r: seq<Entry>)
    ensures |r| == |s| + 1
  {
    SiftUp(s + [e], |s| + 1)
  }

  lemma InsertedIsHeap(s: seq<Entry>, e: Entry)
    requires IsHeap(s)
    ensures IsHeap(Inserted(s, e))
    ensures multiset(Inserted(s, e)) == multiset(s) + multiset{e}
  {
    hide IsHeap, HeapExceptAbove, SiftUp;
    LastOutOfPlace(s, e);
    SiftUpMakesHeap(s + [e], |s| + 1);
  }

  lemma LastOutOfPlace(s: seq<Entry>, e: Entry)
    requires IsHeap(s)
    ensures HeapExceptAbove(s + [e], |s| + 1)
  {
    var t := s + [e];
    forall j | 2 <= j <= |t| && j != |t| ensures Key(t, j / 2) <= Key(t, j) {
      assert Key(t, j / 2) == Key(s, j / 2) && Key(t, j) == Key(s, j);
    }
  }

  /** The last entry takes the place of the first and moves down. */
  function WithoutMin(s: seq<Entry>): (r: seq<Entry>)
    requires s != []
    ensures |r| == |s| - 1
  {
    if |s| == 1 then [] else SiftDown(Swap(s, 1, |s|)[..|s| - 1], 1)
  }

  lemma WithoutMinIsHeap(s: seq<Entry>)
    requires IsHeap(s) && s != []
    ensures IsHeap(WithoutMin(s))
    ensures multiset(WithoutMin(s)) == multiset(s) - multiset{s[0]}
  {
    if |s| > 1 {
      var t := Swap(s, 1, |s|);
      SwapKeepsEntries(s, 1, |s|);
      var u := t[..|s| - 1];
      assert t == u + [s[0]];
      forall j | 2 <= j <= |u| && j / 2 != 1 ensures Key(u, j / 2) <= Key(u, j) {
        assert Key(u, j / 2) == Key(s, j / 2) && Key(u, j) == Key(s, j);
      }
      SiftDownMakesHeap(u, 1);
    } else {
      assert s == [s[0]];
    }
  }

  /** The first entry of a heap has the smallest key. */
  lemma {:induction false} FirstIsMin(s: seq<Entry>, i: nat)
    requires IsHeap(s) && 1 <= i <= |s|
    ensures Key(s, 1) <= Key(s, i)
    decreases i
  {
    if i > 1 {
      FirstIsMin(s, i / 2);
    }
  }
}

/** The priority queue: a heap in an auto-growing vector. */
module PriorityQueues {
  import opened Vectors
  import opened Heaps

  class PriorityQueue {
    const vec: Vector<Entry>
    var entries: nat

    ghost predicate Shape()
      reads this, vec
    {
      vec.Valid() && vec.start == 1 == vec.min && entries <= vec.max
    }

    /** The entries in heap order. */
    ghost function View(): (s: seq<Entry>)
      requires Shape()
      reads this, vec, vec.entry
      ensures |s| == entries
    {
      vec.entry[..entries]
    }

    ghost predicate Valid()
      reads this, vec, vec.entry
    {
      Shape() && IsHeap(View())
    }

    /** Everything in the queue, in no particular order. */
    ghost function Contents(): multiset<Entry>
      requires Shape()
      reads this, vec, vec.entry
    {
      multiset(View())
    }

    constructor (capacity: nat, increment: int)
      ensures Valid() && entries == 0 && fresh(vec) && fresh(vec.entry)
    {
      vec := new Vector(1, capacity, increment, false, Entry(0, 0));
      entries := 0;
    }

    /** The place of an entry that exists already. */
    method Place(i: nat) returns (place: nat)
      requires Shape() && 1 <= i <= entries
      modifies vec, vec.entry
      ensures Shape() && View() == old(View()) && vec.entry == old(vec.entry)
      ensures place == i - 1
    {
      place := vec.At(i);
      forall k | 0 <= k < entries ensures vec.entry[k] == old(vec.entry[k]) {
        assert vec.Value(k + 1) == old(vec.Value(k + 1));
      }
    }

    /** Exchanges two entries. */
    method Exchange(i: nat, j: nat)
      requires Shape() && 1 <= i <= entries && 1 <= j <= entries
      modifies vec, vec.entry
      ensures Shape() && View() == Swap(old(View()), i, j) && vec.entry == old(vec.entry)
    {
      var p := Place(i);
      var q := Place(j);
      vec.entry[p], vec.entry[q] := vec.entry[q], vec.entry[p];
    }

    /** Adds an entry at the end, growing the vector when it is full. */
    method Append(e: Entry)
      requires Shape()
      modifies this, vec, vec.entry
      ensures Shape() && View() == old(View()) + [e] && (vec.entry == old(vec.entry) || fresh(vec.entry))
      ensures entries == old(entries) + 1
    {
      var place := Reserve();
      entries := entries + 1;
      vec.entry[place] := e;
    }

    /** The place behind the last entry. */
    method Reserve() returns (place: nat)
      requires Shape()
      modifies vec, vec.entry
      ensures Shape() && View() == old(View()) && (vec.entry == old(vec.entry) || fresh(vec.entry))
      ensures place == entries < vec.entry.Length && entries + 1 <= vec.max
    {
      place := vec.At(entries + 1);
      forall k | 0 <= k < entries ensures vec.entry[k] == old(vec.entry[k]) {
        assert vec.Value(k + 1) == old(vec.Value(k + 1));
      }
    }

    /** Whether the key of one entry is not larger than that of another. */
    method Ordered(i: nat, j: nat) returns (r: bool)
      requires Shape() && 1 <= i <= entries && 1 <= j <= entries
      modifies vec, vec.entry
      ensures Shape() && View() == old(View()) && vec.entry == old(vec.entry)
      ensures r <==> Key(View(), i) <= Key(View(), j)
    {
      var p := Place(i);
      var q := Place(j);
      r := vec.entry[p].key <= vec.entry[q].key;
    }

    /** Moves the last entry up to its place. */
    method Rise()
      requires Shape() && entries >= 1
      modifies vec, vec.entry
      ensures Shape() && View() == SiftUp(old(View()), entries) && vec.entry == old(vec.entry)
    {
      var current := entries;
      while current > 1
        invariant Shape() && 1 <= current <= entries && vec.entry == old(vec.entry)
        invariant SiftUp(View(), current) == SiftUp(old(View()), entries)
      {
        hide Swap;
        var parent := current / 2;
        var ordered := Ordered(parent, current);
        if ordered {
          break;
        }
        Exchange(current, parent);
        current := parent;
      }
    }

    method Insert(key: nat, data: nat)
      requires Valid()
      modifies this, vec, vec.entry
      ensures Valid() && (vec.entry == old(vec.entry) || fresh(vec.entry))
      ensures View() == Inserted(old(View()), Entry(key, data))
      ensures Contents() == old(Contents()) + multiset{Entry(key, data)}
    {
      hide SiftUp, IsHeap;
      InsertedIsHeap(View(), Entry(key, data));
      Append(Entry(key, data));
      Rise();
    }

    /** The smaller child of an entry among those in front of `last`. */
    method PickChild(current: nat, last: nat) returns (smallest: nat)
      requires Shape() && 1 <= current && current * 2 < last == entries
      modifies vec, vec.entry
      ensures Shape() && View() == old(View()) && vec.entry == old(vec.entry)
      ensures smallest == SmallerChild(View()[..last - 1], current)
    {
      smallest := current * 2;
      var s := Place(smallest);
      if smallest + 1 < last {
        var o := Place(smallest + 1);
        if vec.entry[o].key < vec.entry[s].key {
          smallest := smallest + 1;
        }
      }
    }

    /** Moves the first entry down to its place among those in front of the last. */
    method Sink()
      requires Shape() && entries > 1
      modifies vec, vec.entry
      ensures Shape() && vec.entry == old(vec.entry)
      ensures View()[..entries - 1] == SiftDown(old(View())[..entries - 1], 1)
    {
      hide SiftDown;
      var current, last := 1, entries;
      while current * 2 < last
        invariant Shape() && 1 <= current <= last == entries && vec.entry == old(vec.entry)
        invariant SiftDown(View()[..last - 1], current) == SiftDown(old(View())[..last - 1], 1)
        decreases last - current
      {
        var next := SinkOnce(current);
        if next == current {
          return;
        }
        current := next;
      }
      SiftDownEnds(View()[..last - 1], current);
    }

    /** Exchanges an entry with its smaller child, unless they are in order. */
    method SinkOnce(current: nat) returns (next: nat)
      requires Shape() && 1 <= current && current * 2 < entries
      modifies vec, vec.entry
      ensures Shape() && vec.entry == old(vec.entry) && current <= next <= entries
      ensures SiftDown(View()[..entries - 1], next) == SiftDown(old(View())[..entries - 1], current)
      ensures next == current ==> SiftDown(View()[..entries - 1], current) == View()[..entries - 1]
    {
      hide Swap, SmallerChild;
      ghost var u := View()[..entries - 1];
      var smallest := PickChild(current, entries);
      var ordered := Ordered(current, smallest);
      assert Key(u, current) == Key(View(), current) && Key(u, smallest) == Key(View(), smallest);
      if ordered {
        return current;
      }
      SwapInFront(View(), current, smallest, entries - 1);
      Exchange(current, smallest);
      return smallest;
    }

    method DeleteMin()
      requires Valid()
      modifies this, vec, vec.entry
      ensures Valid() && vec.entry == old(vec.entry)
      ensures old(entries) == 0 ==> View() == old(View())
      ensures old(entries) > 0 ==>
        && View() == WithoutMin(old(View()))
        && Contents() == old(Contents()) - multiset{old(View())[0]}
    {
      if entries < 1 {
        return;
      }
      hide SiftDown, IsHeap, Swap;
      WithoutMinIsHeap(View());
      if entries > 1 {
        Exchange(1, entries);
        Sink();
      }
      DropLast();
    }

    method DropLast()
      requires Shape() && entries > 0
      modifies this
      ensures Shape() && View() == old(View())[..old(entries) - 1]
    {
      entries := entries - 1;
    }

    /** The entry with the smallest key. */
    method First() returns (e: Entry)
      requires Valid() && entries > 0
      modifies vec, vec.entry
      ensures Valid() && View() == old(View()) && vec.entry == old(vec.entry)
      ensures e == View()[0] && e in Contents() && forall x :: x in Contents() ==> e.key <= x.key
    {
      var place := Place(1);
      e := vec.entry[place];
      forall x | x in Contents() ensures e.key <= x.key {
        var i :| 0 <= i < |View()| && View()[i] == x;
        FirstIsMin(View(), i + 1);
      }
    }
  }
}
