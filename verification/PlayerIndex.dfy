/**
  The index of player names: a trie over 37 character classes (letters without
  regard to case, digits, everything else) whose leaves hold up to ten names and
  are split when they overflow.
*/
module PlayerIndex {
  import opened Common

  type Name = seq<Char>

  datatype Entry = Entry(name: Name, characterID: nat)

  /** A missing child, a leaf, or an inner node with one child per class. */
  datatype Node =
    | Missing
    | Leaf(entries: seq<Entry>)
    | Internal(child: seq<Node>)

  const CLASSES := 37
  const LEAF_SIZE := 10
  const MAX_NAME := 29

  /** Equal without regard to case. */
  predicate SameName(a: Name, b: Name) {
    |a| == |b| && forall i :: 0 <= i < |a| ==> ToLower(a[i]) == ToLower(b[i])
  }

  function CharClass(c: Char): (r: nat)
    ensures r < CLASSES
  {
    if 65 <= c <= 90 then c - 65
    else if 97 <= c <= 122 then c - 97
    else if 48 <= c <= 57 then 26 + (c - 48)
    else 36
  }

  predicate IsLetter(c: Char) {
    'A' as int <= c <= 'Z' as int || 'a' as int <= c <= 'z' as int
  }

  predicate IsDigit(c: Char) {
    '0' as int <= c <= '9' as int
  }

  /** Characters share a class if they are one letter, but for case, or one digit, or
      neither letters nor digits; these go to the last class. */
  lemma ClassTellsApart(c: Char, d: Char)
    ensures CharClass(c) == CharClass(d) <==>
      c == d || (IsLetter(c) && IsLetter(d) && (c == d + 32 || d == c + 32))
      || !(IsLetter(c) || IsDigit(c) || IsLetter(d) || IsDigit(d))
    ensures CharClass(c) == CLASSES - 1 <==> !IsLetter(c) && !IsDigit(c)
  {
  }

  /** The class of the character at a position; past the end it is the last class. */
  function Class(name: Name, position: nat): (r: nat)
    ensures r < CLASSES
  {
    if position < |name| then CharClass(name[position]) else 36
  }

  /** Names that no depth of the trie tells apart. */
  ghost predicate SameClasses(a: Name, b: Name) {
    forall k: nat :: Class(a, k) == Class(b, k)
  }

  lemma SameNameSameClasses(a: Name, b: Name)
    requires SameName(a, b)
    ensures SameClasses(a, b)
  {
    forall k: nat ensures Class(a, k) == Class(b, k) {
      if k < |a| {
        assert ToLower(a[k]) == ToLower(b[k]);
      }
    }
  }

  // ---------------------------------------------------------- invariant

  ghost predicate ValidName(name: Name) {
    |name| <= MAX_NAME
  }

  ghost predicate DistinctNames(entries: seq<Entry>) {
    forall i, j :: 0 <= i < j < |entries| ==> entries[i].name != entries[j].name
  }

  /** The classes of a name begin with `prefix`. */
  ghost predicate Begins(name: Name, prefix: seq<nat>) {
    forall k :: 0 <= k < |prefix| ==> Class(name, k) == prefix[k]
  }

  ghost predicate AllBegin(entries: seq<Entry>, prefix: seq<nat>) {
    forall i :: 0 <= i < |entries| ==> ValidName(entries[i].name) && Begins(entries[i].name, prefix)
  }

  /** Every name below a node belongs there. */
  ghost predicate Placed(n: Node, prefix: seq<nat>)
    decreases n
  {
    match n
    case Missing => true
    case Leaf(entries) =>
      && 0 < |entries| <= LEAF_SIZE && DistinctNames(entries)
      && AllBegin(entries, prefix)
    case Internal(child) =>
      && |child| == CLASSES && |prefix| <= MAX_NAME
      && (forall c :: 0 <= c < |child| ==> Placed(child[c], prefix + [c]))
  }

  ghost function SetOf(entries: seq<Entry>): set<Entry> {
    set e | e in entries
  }

  /** The entries below a node. */
  ghost function Entries(n: Node): set<Entry>
    decreases n
  {
    match n
    case Missing => {}
    case Leaf(entries) => SetOf(entries)
    case Internal(child) => set c, e | 0 <= c < |child| && e in Entries(child[c]) :: e
  }

  ghost predicate HasName(n: Node, name: Name) {
    exists e :: e in Entries(n) && e.name == name
  }

  ghost function Twins(n: Node, name: Name): set<Entry> {
    set e | e in Entries(n) && SameClasses(e.name, name)
  }

  /** At most nine other names share all classes with a new one. */
  ghost predicate Uncrowded(n: Node, name: Name) {
    HasName(n, name) || |Twins(n, name)| < LEAF_SIZE
  }

  lemma {:induction false} PlacedEntries(n: Node, prefix: seq<nat>, e: Entry)
    requires Placed(n, prefix) && e in Entries(n)
    ensures ValidName(e.name) && Begins(e.name, prefix)
    decreases n
  {
    match n
    case Missing =>
    case Leaf(entries) =>
    case Internal(child) =>
      var c :| 0 <= c < |child| && e in Entries(child[c]);
      PlacedEntries(child[c], prefix + [c], e);
      forall k | 0 <= k < |prefix| ensures Class(e.name, k) == prefix[k] {
        assert (prefix + [c])[k] == prefix[k];
      }
  }

  /** An entry below an inner node is below the child of its class. */
  lemma EntriesOfChild(n: Node, prefix: seq<nat>, e: Entry)
    requires Placed(n, prefix) && n.Internal?
    ensures e in Entries(n) <==> e in Entries(n.child[Class(e.name, |prefix|)])
  {
    if e in Entries(n) {
      var c :| 0 <= c < |n.child| && e in Entries(n.child[c]);
      PlacedEntries(n.child[c], prefix + [c], e);
      assert (prefix + [c])[|prefix|] == c;
    }
  }

  // ---------------------------------------------------------- searching

  function FirstSame(entries: seq<Entry>, name: Name): (r: Option<Entry>)
    ensures r.Some? ==> r.value in entries && SameName(r.value.name, name)
    ensures r.None? ==> forall e :: e in entries ==> !SameName(e.name, name)
  {
    if entries == [] then None
    else if SameName(entries[0].name, name) then Some(entries[0])
    else FirstSame(entries[1..], name)
  }

  function Search(n: Node, position: nat, name: Name): (r: Option<Entry>)
    decreases n
  {
    match n
    case Missing => None
    case Leaf(entries) => FirstSame(entries, name)
    case Internal(child) =>
      if Class(name, position) < |child| then Search(child[Class(name, position)], position + 1, name) else None
  }

  /** A search below a node finds an equal name exactly when one is there. */
  lemma {:induction false} SearchIsCorrect(n: Node, prefix: seq<nat>, name: Name)
    requires Placed(n, prefix)
    ensures var r := Search(n, |prefix|, name);
      && (r.Some? ==> r.value in Entries(n) && SameName(r.value.name, name))
      && (r.None? ==> forall e :: e in Entries(n) ==> !SameName(e.name, name))
    decreases n
  {
    match n
    case Missing =>
    case Leaf(entries) =>
    case Internal(child) =>
      var c := Class(name, |prefix|);
      SearchIsCorrect(child[c], prefix + [c], name);
      forall e | e in Entries(n) && SameName(e.name, name)
        ensures e in Entries(child[c])
      {
        SameNameSameClasses(e.name, name);
        EntriesOfChild(n, prefix, e);
      }
  }

  // ---------------------------------------------------------- inserting

  function EmptyNode(): Node {
    Internal(seq(CLASSES, _ => Missing))
  }

  predicate Contains(entries: seq<Entry>, name: Name) {
    exists i :: 0 <= i < |entries| && entries[i].name == name
  }

  lemma EmptyIsPlaced(prefix: seq<nat>)
    requires |prefix| <= MAX_NAME
    ensures EmptyNode().Internal? && Placed(EmptyNode(), prefix) && Entries(EmptyNode()) == {}
  {
  }

  /** Replacing the child of one class. */
  lemma ChildReplaced(n: Node, prefix: seq<nat>, c: nat, m: Node, added: set<Entry>)
    requires Placed(n, prefix) && n.Internal? && c < CLASSES && Placed(m, prefix + [c])
    requires Entries(m) == Entries(n.child[c]) + added
    ensures Placed(Internal(n.child[c := m]), prefix)
    ensures Entries(Internal(n.child[c := m])) == Entries(n) + added
  {
    hide Placed;
    ReplacedIsPlaced(n, prefix, c, m);
    ReplacedLength(n, prefix);
    var r := Internal(n.child[c := m]);
    forall e ensures e in Entries(r) <==> e in Entries(n) + added {
      if e in Entries(r) {
        var k :| 0 <= k < |r.child| && e in Entries(r.child[k]);
        assert e in Entries(n.child[k]) || e in added;
      }
      if e in Entries(n) {
        var k :| 0 <= k < |n.child| && e in Entries(n.child[k]);
        assert e in Entries(r.child[k]);
      }
      if e in added {
        assert e in Entries(r.child[c]);
      }
    }
  }

  lemma ReplacedLength(n: Node, prefix: seq<nat>)
    requires Placed(n, prefix) && n.Internal?
    ensures |n.child| == CLASSES
  {
  }

  lemma ReplacedIsPlaced(n: Node, prefix: seq<nat>, c: nat, m: Node)
    requires Placed(n, prefix) && n.Internal? && c < CLASSES && Placed(m, prefix + [c])
    ensures |n.child| == CLASSES && Placed(Internal(n.child[c := m]), prefix)
  {
  }

  lemma BeginsOn(name: Name, prefix: seq<nat>)
    requires Begins(name, prefix)
    ensures Begins(name, prefix + [Class(name, |prefix|)])
  {
  }

  /** A name is below a node exactly when it is below the child of its class. */
  lemma NameOfChild(n: Node, prefix: seq<nat>, name: Name)
    requires Placed(n, prefix) && n.Internal?
    ensures Class(name, |prefix|) < |n.child|
    ensures HasName(n, name) <==> HasName(n.child[Class(name, |prefix|)], name)
  {
    var c := Class(name, |prefix|);
    if HasName(n, name) {
      var e :| e in Entries(n) && e.name == name;
      EntriesOfChild(n, prefix, e);
    }
    if HasName(n.child[c], name) {
      var e :| e in Entries(n.child[c]) && e.name == name;
      assert e in Entries(n);
    }
  }

  lemma {:induction false} LeafSet(entries: seq<Entry>)
    requires DistinctNames(entries)
    ensures |SetOf(entries)| == |entries|
  {
    if entries != [] {
      var rest := entries[1..];
      LeafSet(rest);
      assert SetOf(entries) == SetOf(rest) + {entries[0]};
      assert entries[0] !in rest;
    }
  }

  /** Names that agree on the first 30 classes agree on all of them. */
  lemma DeepNamesAreTwins(a: Name, b: Name, prefix: seq<nat>)
    requires ValidName(a) && ValidName(b) && Begins(a, prefix) && Begins(b, prefix) && |prefix| > MAX_NAME
    ensures SameClasses(a, b)
  {
    forall k: nat ensures Class(a, k) == Class(b, k) {
      if k < |prefix| {
        assert Class(a, k) == prefix[k] == Class(b, k);
      }
    }
  }

  /** A full leaf at the greatest depth is full of names that nothing tells apart. */
  lemma FullLeafIsCrowded(leaf: Node, prefix: seq<nat>, name: Name)
    requires leaf.Leaf? && Placed(leaf, prefix) && |leaf.entries| == LEAF_SIZE && |prefix| > MAX_NAME
    requires ValidName(name) && Begins(name, prefix) && !HasName(leaf, name)
    ensures !Uncrowded(leaf, name)
  {
    LeafSet(leaf.entries);
    forall e | e in Entries(leaf) ensures SameClasses(e.name, name) {
      PlacedEntries(leaf, prefix, e);
      DeepNamesAreTwins(e.name, name, prefix);
    }
    assert Twins(leaf, name) == Entries(leaf);
  }

  lemma LeafHasName(entries: seq<Entry>, name: Name)
    ensures HasName(Leaf(entries), name) <==> Contains(entries, name)
  {
    if Contains(entries, name) {
      var i :| 0 <= i < |entries| && entries[i].name == name;
      assert entries[i] in Entries(Leaf(entries));
    }
  }

  ghost predicate NoneIn(n: Node, entries: seq<Entry>) {
    forall i :: 0 <= i < |entries| ==> !HasName(n, entries[i].name)
  }

  /**
    Inserts an entry below an inner node at a depth, in at most `fuel` turns of the
    loop, and as many in each insert that splitting a leaf starts; None if they do
    not suffice.
  */
  function Insert(n: Node, position: nat, e: Entry, fuel: nat): (r: Option<Node>)
    decreases fuel, 0
  {
    var c := Class(e.name, position);
    if !n.Internal? || |n.child| != CLASSES || fuel == 0 then None
    else
      match InsertAt(n.child[c], position + 1, e, fuel - 1)
      case None => None
      case Some(m) => Some(Internal(n.child[c := m]))
  }

  /** What becomes of the child that an entry belongs to.  A full leaf is split by
      inserting its entries below a new inner node. */
  function InsertAt(m: Node, position: nat, e: Entry, fuel: nat): (r: Option<Node>)
    decreases fuel, if m.Leaf? then |m.entries| + 2 else 1
  {
    match m
    case Missing => Some(Leaf([e]))
    case Internal(_) => Insert(m, position, e, fuel)
    case Leaf(entries) =>
      if Contains(entries, e.name) then Some(m)
      else if |entries| < LEAF_SIZE then Some(Leaf(entries + [e]))
      else
        match InsertAll(EmptyNode(), position, entries, fuel)
        case None => None
        case Some(split) => Insert(split, position, e, fuel)
  }

  function InsertAll(n: Node, position: nat, entries: seq<Entry>, fuel: nat): (r: Option<Node>)
    decreases fuel, 1 + |entries|
  {
    if entries == [] then Some(n)
    else
      match Insert(n, position, entries[0], fuel)
      case None => None
      case Some(m) => InsertAll(m, position, entries[1..], fuel)
  }

  /** Turns that suffice for whatever insert ends at all. */
  function Turns(depth: nat): int {
    MAX_NAME + 1 - depth
  }

  /**
    Whatever the number of turns, an insert that ends loses no entry and adds the new
    one, and names that share all classes do not fill a leaf; and if they do not, it
    ends in as many turns as the longest name has classes left.
  */
  lemma {:induction false} InsertIsCorrect(n: Node, prefix: seq<nat>, e: Entry, fuel: nat)
    requires n.Internal? && Placed(n, prefix) && ValidName(e.name) && Begins(e.name, prefix)
    ensures var r := Insert(n, |prefix|, e, fuel);
      && (Uncrowded(n, e.name) && fuel >= Turns(|prefix|) ==> r.Some?)
      && (r.Some? ==>
            && Uncrowded(n, e.name) && r.value.Internal? && Placed(r.value, prefix)
            && Entries(r.value) == if HasName(n, e.name) then Entries(n) else Entries(n) + {e})
    decreases fuel, 0
  {
    if fuel > 0 {
      hide Entries, Uncrowded, HasName, Twins, Begins, SameClasses, InsertAt, ValidName;
      var c := Class(e.name, |prefix|);
      NameOfChild(n, prefix, e.name);
      SameTwins(n, prefix, e.name);
      BeginsOn(e.name, prefix);
      InsertAtIsCorrect(n.child[c], prefix + [c], e, fuel - 1);
      var r := InsertAt(n.child[c], |prefix| + 1, e, fuel - 1);
      if r.Some? {
        InsertedChild(n, prefix, c, r.value, e);
      }
    }
  }

  lemma {:induction false} InsertAtIsCorrect(m: Node, prefix: seq<nat>, e: Entry, fuel: nat)
    requires Placed(m, prefix) && ValidName(e.name) && Begins(e.name, prefix)
    ensures var r := InsertAt(m, |prefix|, e, fuel);
      && (Uncrowded(m, e.name) && fuel >= Turns(|prefix|) ==> r.Some?)
      && (r.Some? ==>
            && Uncrowded(m, e.name) && Placed(r.value, prefix)
            && Entries(r.value) == if HasName(m, e.name) then Entries(m) else Entries(m) + {e})
    decreases fuel, LEAF_SIZE + 3
  {
    hide Begins, InsertAll, Insert, SameClasses, Twins;
    match m
    case Missing => FewIsUncrowded(m, e.name);
    case Internal(_) => InsertIsCorrect(m, prefix, e, fuel);
    case Leaf(entries) => InsertAtLeaf(m, prefix, e, fuel);
  }

  lemma {:induction false} InsertAtLeaf(m: Node, prefix: seq<nat>, e: Entry, fuel: nat)
    requires m.Leaf? && Placed(m, prefix) && ValidName(e.name) && Begins(e.name, prefix)
    ensures var r := InsertAt(m, |prefix|, e, fuel);
      && (Uncrowded(m, e.name) && fuel >= Turns(|prefix|) ==> r.Some?)
      && (r.Some? ==>
            && Uncrowded(m, e.name) && Placed(r.value, prefix)
            && Entries(r.value) == if HasName(m, e.name) then Entries(m) else Entries(m) + {e})
    decreases fuel, LEAF_SIZE + 2, 1
  {
    LeafFacts(m, prefix);
    LeafHasName(m.entries, e.name);
    hide Begins, InsertAll, Insert, SameClasses, Twins, Placed, Entries, Contains;
    if Contains(m.entries, e.name) {
    } else if |m.entries| < LEAF_SIZE {
      hide HasName;
      LeafAppended(m.entries, prefix, e);
      FewIsUncrowded(m, e.name);
    } else if |prefix| > MAX_NAME {
      hide HasName;
      FullLeafIsCrowded(m, prefix, e.name);
      DeepLeafRepeats(m, prefix, e, fuel);
    } else {
      hide HasName;
      InsertBySplitting(m, prefix, e, fuel);
    }
  }

  lemma {:induction false} InsertBySplitting(m: Node, prefix: seq<nat>, e: Entry, fuel: nat)
    requires m.Leaf? && Placed(m, prefix) && |m.entries| == LEAF_SIZE && |prefix| <= MAX_NAME
    requires ValidName(e.name) && Begins(e.name, prefix) && !HasName(m, e.name) && !Contains(m.entries, e.name)
    ensures var r := InsertAt(m, |prefix|, e, fuel);
      && (Uncrowded(m, e.name) && fuel >= Turns(|prefix|) ==> r.Some?)
      && (r.Some? ==> Uncrowded(m, e.name) && Placed(r.value, prefix) && Entries(r.value) == Entries(m) + {e})
    decreases fuel, LEAF_SIZE + 2, 0
  {
    hide Begins, InsertAll, Insert, SameClasses, Twins, Placed, Entries, HasName, Contains, NoneIn, AllBegin,
         DistinctNames, SetOf, Uncrowded, EmptyNode;
    LeafFacts(m, prefix);
    EmptyIsPlaced(prefix);
    NoneInEmpty(m.entries);
    InsertAllIsCorrect(EmptyNode(), prefix, m.entries, fuel);
    var r := InsertAll(EmptyNode(), |prefix|, m.entries, fuel);
    if r.Some? {
      assert Entries(r.value) == Entries(m);
      SplitHasSame(m, r.value, e.name);
      InsertIsCorrect(r.value, prefix, e, fuel);
    }
  }

  lemma NoneInEmpty(entries: seq<Entry>)
    ensures NoneIn(EmptyNode(), entries)
  {
  }

  lemma LeafFacts(m: Node, prefix: seq<nat>)
    requires m.Leaf? && Placed(m, prefix)
    ensures 0 < |m.entries| <= LEAF_SIZE && AllBegin(m.entries, prefix) && DistinctNames(m.entries)
    ensures Entries(m) == SetOf(m.entries) && |Entries(m)| == |m.entries|
  {
    LeafSet(m.entries);
  }

  lemma LeafAppended(entries: seq<Entry>, prefix: seq<nat>, e: Entry)
    requires Placed(Leaf(entries), prefix) && |entries| < LEAF_SIZE && !Contains(entries, e.name)
    requires ValidName(e.name) && Begins(e.name, prefix)
    ensures Placed(Leaf(entries + [e]), prefix) && Entries(Leaf(entries + [e])) == Entries(Leaf(entries)) + {e}
  {
  }

  lemma EmptySet()
    ensures SetOf([]) == {}
  {
  }

  lemma OneByOne(entries: seq<Entry>, prefix: seq<nat>)
    requires entries != [] && AllBegin(entries, prefix) && DistinctNames(entries)
    ensures ValidName(entries[0].name) && Begins(entries[0].name, prefix)
    ensures AllBegin(entries[1..], prefix) && DistinctNames(entries[1..])
  {
  }

  lemma NewOnly(n: Node, entries: seq<Entry>)
    requires entries != [] && NoneIn(n, entries)
    ensures !HasName(n, entries[0].name)
  {
  }

  /** Splitting a leaf keeps its entries. */
  lemma {:induction false} InsertAllIsCorrect(n: Node, prefix: seq<nat>, entries: seq<Entry>, fuel: nat)
    requires n.Internal? && Placed(n, prefix)
    requires AllBegin(entries, prefix) && DistinctNames(entries) && NoneIn(n, entries)
    requires |Entries(n)| + |entries| <= LEAF_SIZE
    ensures var r := InsertAll(n, |prefix|, entries, fuel);
      && (fuel >= Turns(|prefix|) ==> r.Some?)
      && (r.Some? ==> r.value.Internal? && Placed(r.value, prefix) && Entries(r.value) == Entries(n) + SetOf(entries))
    decreases fuel, 1 + |entries|
  {
    hide Insert, Placed, Entries, Uncrowded, Begins, HasName, AllBegin, DistinctNames, NoneIn, SetOf, ValidName;
    if entries == [] {
      EmptySet();
    } else {
      OneByOne(entries, prefix);
      FewIsUncrowded(n, entries[0].name);
      InsertIsCorrect(n, prefix, entries[0], fuel);
      var r := Insert(n, |prefix|, entries[0], fuel);
      if r.Some? {
        NewOnly(n, entries);
        StillNew(n, r.value, entries);
        InsertAllIsCorrect(r.value, prefix, entries[1..], fuel);
      }
    }
  }

  /** The names that share all classes with a name are below the child of its class. */
  lemma SameTwins(n: Node, prefix: seq<nat>, name: Name)
    requires Placed(n, prefix) && n.Internal?
    ensures Class(name, |prefix|) < |n.child|
    ensures Twins(n, name) == Twins(n.child[Class(name, |prefix|)], name)
    ensures Uncrowded(n, name) <==> Uncrowded(n.child[Class(name, |prefix|)], name)
  {
    var m := n.child[Class(name, |prefix|)];
    NameOfChild(n, prefix, name);
    forall e ensures e in Twins(n, name) <==> e in Twins(m, name) {
      if SameClasses(e.name, name) {
        assert Class(e.name, |prefix|) == Class(name, |prefix|);
        EntriesOfChild(n, prefix, e);
      }
    }
  }

  lemma FewIsUncrowded(n: Node, name: Name)
    requires |Entries(n)| < LEAF_SIZE
    ensures Uncrowded(n, name)
  {
    SubsetSize(Twins(n, name), Entries(n));
  }

  lemma StillNew(n: Node, m: Node, entries: seq<Entry>)
    requires entries != [] && DistinctNames(entries) && NoneIn(n, entries)
    requires Entries(m) == Entries(n) + {entries[0]}
    ensures NoneIn(m, entries[1..])
    ensures |Entries(m)| <= |Entries(n)| + 1
    ensures SetOf(entries) == {entries[0]} + SetOf(entries[1..])
  {
    hide Entries;
    forall i | 0 <= i < |entries[1..]| ensures !HasName(m, entries[1..][i].name) {
      assert entries[1..][i] == entries[i + 1];
    }
    assert entries == [entries[0]] + entries[1..];
  }

  lemma SplitHasSame(leaf: Node, split: Node, name: Name)
    requires leaf.Leaf? && Entries(split) == Entries(leaf)
    ensures HasName(split, name) <==> HasName(leaf, name)
    ensures Uncrowded(split, name) <==> Uncrowded(leaf, name)
  {
    assert Twins(split, name) == Twins(leaf, name);
  }

  lemma InsertedChild(n: Node, prefix: seq<nat>, c: nat, m: Node, e: Entry)
    requires Placed(n, prefix) && n.Internal? && c == Class(e.name, |prefix|) && Placed(m, prefix + [c])
    requires |n.child| == CLASSES && (HasName(n, e.name) <==> HasName(n.child[c], e.name))
    requires Entries(m) == if HasName(n.child[c], e.name) then Entries(n.child[c]) else Entries(n.child[c]) + {e}
    ensures Placed(Internal(n.child[c := m]), prefix)
    ensures Entries(Internal(n.child[c := m])) == if HasName(n, e.name) then Entries(n) else Entries(n) + {e}
  {
    if HasName(n.child[c], e.name) {
      ChildReplaced(n, prefix, c, m, {});
    } else {
      ChildReplaced(n, prefix, c, m, {e});
    }
  }

  // ---------------------------------------------------------- inserts that never end

  /** Splitting a leaf of names that share all classes only moves it one level down. */
  lemma {:induction false} SplittingRepeats(entries: seq<Entry>, name: Name, position: nat, fuel: nat)
    requires |entries| <= LEAF_SIZE && DistinctNames(entries) && fuel > 0
    requires forall i :: 0 <= i < |entries| ==> SameClasses(entries[i].name, name)
    ensures InsertAll(EmptyNode(), position, entries, fuel) ==
      Some(if entries == [] then EmptyNode() else Internal(EmptyNode().child[Class(name, position) := Leaf(entries)]))
  {
    if entries != [] {
      var c := Class(name, position);
      assert SameClasses(entries[0].name, name);
      assert Insert(EmptyNode(), position, entries[0], fuel) == Some(Internal(EmptyNode().child[c := Leaf([entries[0]])]));
      assert entries == [entries[0]] + entries[1..];
      FillsOneLeaf([entries[0]], entries[1..], name, position, fuel);
    }
  }

  lemma {:induction false} FillsOneLeaf(front: seq<Entry>, entries: seq<Entry>, name: Name, position: nat, fuel: nat)
    requires front != [] && |front| + |entries| <= LEAF_SIZE && DistinctNames(front + entries) && fuel > 0
    requires forall i :: 0 <= i < |entries| ==> SameClasses(entries[i].name, name)
    ensures InsertAll(Internal(EmptyNode().child[Class(name, position) := Leaf(front)]), position, entries, fuel) ==
      Some(Internal(EmptyNode().child[Class(name, position) := Leaf(front + entries)]))
    decreases |entries|
  {
    var c := Class(name, position);
    if entries == [] {
      assert front + entries == front;
    } else {
      var e := entries[0];
      var n := Internal(EmptyNode().child[c := Leaf(front)]);
      assert Class(e.name, position) == c by { assert SameClasses(e.name, name); }
      assert !Contains(front, e.name) by {
        assert forall i :: 0 <= i < |front| ==> (front + entries)[i] == front[i] && (front + entries)[|front|] == e;
      }
      assert InsertAt(Leaf(front), position + 1, e, fuel - 1) == Some(Leaf(front + [e]));
      assert n.child[c := Leaf(front + [e])] == EmptyNode().child[c := Leaf(front + [e])];
      assert front + [e] + entries[1..] == front + entries;
      FillsOneLeaf(front + [e], entries[1..], name, position, fuel);
    }
  }

  /**
    A full leaf of names that share all classes with a new one is split again and
    again, at whatever depth: no number of turns suffices.
  */
  lemma {:induction false} SplittingNeverEnds(entries: seq<Entry>, e: Entry, position: nat, fuel: nat)
    requires |entries| == LEAF_SIZE && DistinctNames(entries) && !Contains(entries, e.name)
    requires forall i :: 0 <= i < |entries| ==> SameClasses(entries[i].name, e.name)
    ensures InsertAt(Leaf(entries), position, e, fuel) == None
    decreases fuel
  {
    if fuel > 0 {
      SplittingRepeats(entries, e.name, position, fuel);
      SplittingNeverEnds(entries, e, position + 1, fuel - 1);
    }
  }

  /** A full leaf deeper than any name holds only such names. */
  lemma DeepLeafRepeats(leaf: Node, prefix: seq<nat>, e: Entry, fuel: nat)
    requires leaf.Leaf? && Placed(leaf, prefix) && |leaf.entries| == LEAF_SIZE && |prefix| > MAX_NAME
    requires ValidName(e.name) && Begins(e.name, prefix) && !Contains(leaf.entries, e.name)
    ensures InsertAt(leaf, |prefix|, e, fuel) == None
  {
    forall i | 0 <= i < |leaf.entries| ensures SameClasses(leaf.entries[i].name, e.name) {
      DeepNamesAreTwins(leaf.entries[i].name, e.name, prefix);
    }
    SplittingNeverEnds(leaf.entries, e, |prefix|, fuel);
  }

  /**
    An insert into the index ends if and only if its name is there already or fewer
    than ten stored names share all classes with it.
  */
  lemma InsertEndsIff(head: Node, e: Entry)
    requires head.Internal? && Placed(head, []) && ValidName(e.name)
    ensures (exists fuel: nat :: Insert(head, 0, e, fuel).Some?) <==> Uncrowded(head, e.name)
  {
    InsertIsCorrect(head, [], e, Turns(0));
    if fuel: nat :| Insert(head, 0, e, fuel).Some? {
      InsertIsCorrect(head, [], e, fuel);
    }
  }

  /** The ten names of one character from `!` to `*`. */
  function TenNames(): (entries: seq<Entry>)
    ensures |entries| == LEAF_SIZE
  {
    seq(LEAF_SIZE, i requires 0 <= i => Entry([33 + i], 1 + i))
  }

  lemma TenNamesAreTwins()
    ensures DistinctNames(TenNames()) && !Contains(TenNames(), [43])
    ensures forall i :: 0 <= i < LEAF_SIZE ==> SameClasses(TenNames()[i].name, [43])
  {
    var entries := TenNames();
    forall i, j | 0 <= i < j < LEAF_SIZE ensures entries[i].name != entries[j].name {
      assert entries[i].name[0] != entries[j].name[0];
    }
    forall i | 0 <= i < LEAF_SIZE ensures entries[i].name != [43] && SameClasses(entries[i].name, [43]) {
      assert entries[i].name[0] != 43;
    }
  }

  /** After ten names that differ in punctuation alone, the eleventh is never inserted. */
  lemma EleventhNeverEnds(fuel: nat)
    ensures var e := Entry([43], 11);
      && ValidName(e.name)
      && InsertAll(EmptyNode(), 0, TenNames(), 1).Some?
      && Insert(InsertAll(EmptyNode(), 0, TenNames(), 1).value, 0, e, fuel) == None
  {
    hide TenNames, InsertAll, SameClasses, Contains, DistinctNames;
    var e := Entry([43], 11);
    TenNamesAreTwins();
    SplittingRepeats(TenNames(), e.name, 0, 1);
    if fuel > 0 {
      SplittingNeverEnds(TenNames(), e, 1, fuel - 1);
    }
  }

  // ---------------------------------------------------------- the whole index

  /** The index agrees with a plain collection: inserting adds exactly the entry
      unless its name is there, and a search finds an equal name, without regard
      to case, exactly when one was inserted. */
  lemma InsertThenSearch(head: Node, e: Entry, name: Name)
    requires head.Internal? && Placed(head, []) && ValidName(e.name) && Uncrowded(head, e.name)
    ensures var r := Insert(head, 0, e, Turns(0));
      && r.Some? && r.value.Internal? && Placed(r.value, [])
      && var found := Search(r.value, 0, name);
         && (found.Some? <==> SameName(e.name, name) || exists x :: x in Entries(head) && SameName(x.name, name))
         && (found.Some? ==> SameName(found.value.name, name) && (found.value == e || found.value in Entries(head)))
  {
    InsertIsCorrect(head, [], e, Turns(0));
    var n := Insert(head, 0, e, Turns(0)).value;
    SearchIsCorrect(n, [], name);
    if HasName(head, e.name) {
      var x :| x in Entries(head) && x.name == e.name;
    }
  }

  /** The index after any sequence of insertions that all end. */
  ghost predicate Built(head: Node, inserted: seq<Entry>)
    decreases |inserted|
  {
    if inserted == [] then head == EmptyNode()
    else
      var e := inserted[|inserted| - 1];
      ValidName(e.name) && exists before, fuel: nat ::
        Built(before, inserted[..|inserted| - 1]) && Insert(before, 0, e, fuel) == Some(head)
  }

  lemma BeginsNothing(name: Name)
    ensures Begins(name, [])
  {
  }

  lemma {:induction false} BuiltIsCorrect(head: Node, inserted: seq<Entry>, name: Name)
    requires Built(head, inserted)
    ensures head.Internal? && Placed(head, [])
    ensures forall x :: x in Entries(head) ==> x in inserted
    ensures forall x :: x in inserted ==> HasName(head, x.name)
    ensures Search(head, 0, name).Some? <==> exists x :: x in inserted && SameName(x.name, name)
    ensures Search(head, 0, name).Some? ==>
      Search(head, 0, name).value in inserted && SameName(Search(head, 0, name).value.name, name)
    decreases |inserted|
  {
    hide Insert, Placed, Search, SameName, Uncrowded, Begins;
    if inserted == [] {
      EmptyIsPlaced([]);
    } else {
      var n := |inserted| - 1;
      var e := inserted[n];
      var before, fuel: nat :| Built(before, inserted[..n]) && Insert(before, 0, e, fuel) == Some(head);
      BuiltIsCorrect(before, inserted[..n], name);
      BeginsNothing(e.name);
      InsertIsCorrect(before, [], e, fuel);
      assert inserted == inserted[..n] + [e];
      forall x | x in inserted ensures HasName(head, x.name) {
        if x == e {
          if !HasName(before, e.name) {
            assert e in Entries(head);
          }
        }
      }
    }
    SearchIsCorrect(head, [], name);
    if x :| x in inserted && SameName(x.name, name) {
      var y :| y in Entries(head) && y.name == x.name;
    }
  }
}
