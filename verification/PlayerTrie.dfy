/**
  The index of player names as linked nodes that are changed in place.
*/
module PlayerTrie {
  import opened Common
  import opened PlayerIndex

  /** A leaf with entries, or an inner node with one child per class. */
  class TrieNode {
    const internal: bool
    const child: array<TrieNode?>
    var entries: seq<Entry>
    ghost var repr: set<object>
    ghost var view: Node

    /** The nodes form a tree, and `view` is what it holds. */
    ghost predicate Valid()
      reads this, repr
      decreases repr
    {
      && this in repr
      && if !internal then view == Leaf(entries)
         else
           && child in repr && child.Length == CLASSES && view.Internal? && |view.child| == CLASSES
           && (forall c :: 0 <= c < CLASSES ==> ChildOk(c))
           && (forall c, d :: 0 <= c < d < CLASSES ==> ChildrenApart(c, d))
    }

    ghost predicate ChildOk(c: nat)
      requires this in repr && child in repr && child.Length == CLASSES && c < CLASSES
      requires view.Internal? && |view.child| == CLASSES
      reads this, repr
      decreases repr, 0
    {
      if child[c] == null then view.child[c] == Missing
      else
        && child[c] in repr && child[c].repr < repr && this !in child[c].repr && child !in child[c].repr
        && child[c].Valid() && view.child[c] == child[c].view
    }

    ghost predicate ChildrenApart(c: nat, d: nat)
      requires this in repr && child in repr && child.Length == CLASSES && c < CLASSES && d < CLASSES
      reads this, repr
    {
      child[c] != null && child[d] != null ==>
        child[c] in repr && child[d] in repr && child[c].repr !! child[d].repr
    }

    constructor NewLeaf(entries: seq<Entry>)
      ensures Valid() && !internal && this.entries == entries && fresh(repr) && view == Leaf(entries)
    {
      internal := false;
      child := new TrieNode?[0];
      this.entries := entries;
      repr := {this};
      view := Leaf(entries);
    }

    constructor NewInner()
      ensures Valid() && internal && fresh(repr) && view == EmptyNode()
    {
      internal := true;
      var none := new TrieNode?[CLASSES](_ => null);
      child := none;
      entries := [];
      repr := {this, none};
      view := EmptyNode();
      new;
      assert forall c :: 0 <= c < CLASSES ==> ChildOk(c);
      assert forall c, d :: 0 <= c < d < CLASSES ==> ChildrenApart(c, d);
    }

    /** Everything but the child of one class is in order. */
    ghost predicate ValidExcept(c: nat)
      reads this, repr
    {
      && this in repr && internal && c < CLASSES
      && child in repr && child.Length == CLASSES && view.Internal? && |view.child| == CLASSES
      && (forall d :: 0 <= d < CLASSES && d != c ==> ChildOk(d))
      && (forall a, b :: 0 <= a < b < CLASSES && a != c && b != c ==> ChildrenApart(a, b))
    }

    /** A valid tree becomes the child of a class. */
    method SetChild(c: nat, n: TrieNode)
      requires ValidExcept(c) && n.Valid() && this !in n.repr && child !in n.repr
      requires forall d :: 0 <= d < CLASSES && d != c && child[d] != null ==> child[d].repr !! n.repr
      modifies this, child
      ensures Valid() && repr == old(repr) + n.repr && view == Internal(old(view).child[c := n.view])
    {
      assert forall d :: 0 <= d < CLASSES && d != c ==> ChildOk(d);
      assert forall a, b :: 0 <= a < b < CLASSES && a != c && b != c ==> ChildrenApart(a, b);
      child[c] := n;
      repr := repr + n.repr;
      view := Internal(view.child[c := n.view]);
      assert n.Valid() && n.repr == old(n.repr);
      forall d | 0 <= d < CLASSES ensures ChildOk(d) {
        if d != c {
          assert old(ChildOk(d)) && child[d] == old(child[d]);
          if child[d] != null {
            assert child[d].repr == old(child[d].repr) && child[d].Valid();
          }
        }
      }
      forall a, b | 0 <= a < b < CLASSES ensures ChildrenApart(a, b) {
        if a != c && b != c {
          assert old(ChildrenApart(a, b)) && old(ChildOk(a)) && old(ChildOk(b));
        } else if a == c {
          assert old(ChildOk(b));
        } else {
          assert old(ChildOk(a));
        }
      }
    }

    /** New nodes become the child of a class. */
    method PutNew(c: nat, n: TrieNode)
      requires Valid() && internal && c < CLASSES && n.Valid() && n.repr !! repr
      requires child in repr && view.Internal? && |view.child| == CLASSES
      modifies this, child
      ensures Valid() && repr == old(repr) + n.repr && view == Internal(old(view).child[c := n.view])
    {
      forall d | 0 <= d < CLASSES && child[d] != null ensures child[d].repr !! n.repr {
        assert ChildOk(d);
      }
      SetChild(c, n);
    }

    /** The child of a class takes up an entry: an inner node below it, a leaf in itself. */
    method Descend(c: nat, position: nat, e: Entry, ghost fuel: nat)
      requires Valid() && internal && c < CLASSES && child in repr && child.Length == CLASSES && child[c] != null
      requires view.Internal? && |view.child| == CLASSES && child[c] in repr
      requires child[c].internal ==> Insert(child[c].view, position, e, fuel).Some?
      modifies repr
      ensures Valid() && fresh(repr - old(repr)) && old(repr) <= repr
      ensures var m := if old(child[c]).internal then Insert(old(child[c].view), position, e, fuel).value
                       else Leaf(old(child[c].entries) + [e]);
        view == Internal(old(view).child[c := m])
      decreases fuel, 1
    {
      hide Insert;
      var m := child[c];
      InnerShape(c);
      assert forall d :: 0 <= d < CLASSES ==> ChildOk(d);
      assert forall a, b :: 0 <= a < b < CLASSES ==> ChildrenApart(a, b);
      if m.internal {
        m.InsertEntry(position, e, fuel);
      } else {
        m.Append(e);
      }
      forall d | 0 <= d < CLASSES && d != c
        ensures ChildOk(d) && (child[d] != null ==> child[d].repr !! m.repr && child[d].repr == old(child[d].repr))
      {
        assert old(ChildOk(d)) && child[d] == old(child[d]);
        assert old(ChildrenApart(if c < d then c else d, if c < d then d else c));
        if child[d] != null {
          assert old(child[d] in child[d].repr) by { assert old(child[d].Valid()); }
          assert child[d].repr == old(child[d].repr) && child[d].Valid();
        }
      }
      forall a, b | 0 <= a < b < CLASSES && a != c && b != c ensures ChildrenApart(a, b) {
        assert old(ChildrenApart(a, b)) && old(ChildOk(a)) && old(ChildOk(b)) && ChildOk(a) && ChildOk(b);
      }
      SetChild(c, m);
    }

    /** Inserts an entry below an inner node at a depth, where that ends. */
    method InsertEntry(position: nat, e: Entry, ghost fuel: nat)
      requires Valid() && internal && Insert(view, position, e, fuel).Some?
      modifies repr
      ensures Valid() && fresh(repr - old(repr)) && old(repr) <= repr
      ensures Insert(old(view), position, e, fuel) == Some(view)
      decreases fuel, 0
    {
      hide Valid, ValidExcept, Insert, InsertAt, InsertAll;
      var c := Class(e.name, position);
      InnerShape(c);
      InsertStep(view, position, e, fuel);
      var m := child[c];
      if m == null {
        var leaf := new TrieNode.NewLeaf([e]);
        PutNew(c, leaf);
        return;
      }
      if m.internal {
        Descend(c, position + 1, e, fuel - 1);
        return;
      }
      var known := m.Find(e.name);
      if known {
        assert view.child[c := view.child[c]] == view.child;
        return;
      }
      if |m.entries| < LEAF_SIZE {
        Descend(c, position + 1, e, fuel - 1);
        return;
      }
      var split := m.Split(position + 1, e, fuel - 1);
      PutNew(c, split);
    }

    /** Inserts a player below the head of the index; it ends if fewer than ten names share all classes. */
    method InsertPlayerIndex(e: Entry)
      requires Valid() && internal && Placed(view, []) && ValidName(e.name) && Uncrowded(view, e.name)
      modifies repr
      ensures Valid() && fresh(repr - old(repr)) && Placed(view, [])
      ensures Entries(view) == if HasName(old(view), e.name) then old(Entries(view)) else old(Entries(view)) + {e}
    {
      hide Valid, Insert, Uncrowded, Placed, Entries, HasName;
      assert Begins(e.name, []);
      InnerShape(0);
      InsertIsCorrect(view, [], e, Turns(0));
      InsertEntry(0, e, Turns(0));
    }

    /** Walks down the classes of a name and looks through the leaf it ends at. */
    method SearchPlayerIndex(name: Name) returns (r: Option<Entry>)
      requires Valid() && internal && Placed(view, [])
      ensures r == Search(view, 0, name)
      ensures r.Some? ==> r.value in Entries(view) && SameName(r.value.name, name)
      ensures r.None? ==> forall e :: e in Entries(view) ==> !SameName(e.name, name)
    {
      hide Placed, Entries, SameName;
      SearchIsCorrect(view, [], name);
      var node: TrieNode, position := this, 0;
      while node.internal
        invariant node.Valid() && node in repr && node.repr <= repr
        invariant Search(node.view, position, name) == Search(view, 0, name)
        decreases node.repr
      {
        hide Valid;
        var c := Class(name, position);
        node.InnerShape(c);
        if node.child[c] == null {
          return None;
        }
        node := node.child[c];
        position := position + 1;
      }
      for i := 0 to |node.entries|
        invariant FirstSame(node.entries[i..], name) == Search(view, 0, name)
      {
        if SameName(node.entries[i].name, name) {
          return Some(node.entries[i]);
        }
      }
      return None;
    }

    /** The parts of an inner node. */
    lemma InnerShape(c: nat)
      requires Valid() && internal && c < CLASSES
      ensures this in repr && child in repr && child.Length == CLASSES && view.Internal? && |view.child| == CLASSES
      ensures child[c] == null ==> view.child[c] == Missing
      ensures child[c] != null ==>
        && child[c] in repr && child[c].repr < repr && child[c].Valid() && view.child[c] == child[c].view
        && this !in child[c].repr && child !in child[c].repr
        && (if child[c].internal then child[c].view.Internal? else child[c].view == Leaf(child[c].entries))
    {
      assert ChildOk(c);
    }

    /** Whether a leaf has an entry with exactly this name. */
    method Find(name: Name) returns (found: bool)
      requires !internal
      ensures found <==> Contains(entries, name)
    {
      for i := 0 to |entries|
        invariant forall j :: 0 <= j < i ==> entries[j].name != name
      {
        if entries[i].name == name {
          return true;
        }
      }
      return false;
    }

    method Append(e: Entry)
      requires Valid() && !internal
      modifies this
      ensures Valid() && repr == old(repr) && view == Leaf(old(entries) + [e])
    {
      entries := entries + [e];
      view := Leaf(entries);
    }

    /** A new inner node takes over the entries of a full leaf and one more. */
    method Split(position: nat, e: Entry, ghost fuel: nat) returns (split: TrieNode)
      requires !internal
      requires var all := InsertAll(EmptyNode(), position, entries, fuel);
        all.Some? && Insert(all.value, position, e, fuel).Some?
      ensures split.Valid() && split.internal && fresh(split.repr)
      ensures Insert(InsertAll(EmptyNode(), position, entries, fuel).value, position, e, fuel) == Some(split.view)
      decreases fuel, 1
    {
      hide Valid, Insert, EmptyNode;
      split := new TrieNode.NewInner();
      for i := 0 to |entries|
        invariant split.Valid() && split.internal && fresh(split.repr)
        invariant InsertAll(split.view, position, entries[i..], fuel) == InsertAll(EmptyNode(), position, entries, fuel)
      {
        assert entries[i..][0] == entries[i] && entries[i..][1..] == entries[i + 1..];
        split.InsertEntry(position, entries[i], fuel);
      }
      assert entries[|entries|..] == [];
      split.InsertEntry(position, e, fuel);
    }
  }

  /** What inserting does at one inner node. */
  lemma InsertStep(n: Node, position: nat, e: Entry, fuel: nat)
    requires n.Internal? && Insert(n, position, e, fuel).Some?
    ensures |n.child| == CLASSES && fuel > 0
    ensures var m := n.child[Class(e.name, position)];
      var r := Insert(n, position, e, fuel).value;
      && r.Internal?
      && (m.Missing? ==> r.child == n.child[Class(e.name, position) := Leaf([e])])
      && (m.Internal? ==>
            && Insert(m, position + 1, e, fuel - 1).Some?
            && r.child == n.child[Class(e.name, position) := Insert(m, position + 1, e, fuel - 1).value])
      && (m.Leaf? && Contains(m.entries, e.name) ==> r.child == n.child[Class(e.name, position) := m])
      && (m.Leaf? && !Contains(m.entries, e.name) && |m.entries| < LEAF_SIZE ==>
            r.child == n.child[Class(e.name, position) := Leaf(m.entries + [e])])
      && (m.Leaf? && !Contains(m.entries, e.name) && |m.entries| >= LEAF_SIZE ==>
            var all := InsertAll(EmptyNode(), position + 1, m.entries, fuel - 1);
               && all.Some? && Insert(all.value, position + 1, e, fuel - 1).Some?
               && r.child == n.child[Class(e.name, position) := Insert(all.value, position + 1, e, fuel - 1).value])
  {
    hide InsertAll;
  }
}
