/**
  The component tree: nodes with their serialized form, their in-memory value and its
  dirtiness, and the walks that find, place and remove nodes by path.
 */
module Trees {
  import opened Wrappers
  import opened Versions
  import opened Tasks

  type Name = string
  type Path = seq<Name>

  /** How a persisted node is typed; only components carry task lists. */
  datatype Attributes =
    | ComponentAttributes(typ: string, sideEffects: seq<Task>, pures: seq<Task>)
    | DataAttributes
    | CollectionAttributes
    | PointerAttributes(target: Path)

  datatype SerializedNode = SerializedNode(initial: VT, last: VT, attrs: Attributes, data: string)

  /** Dirtiness of a value, in increasing order. Undefined is a node made but not filled in yet. */
  datatype ValueState = Undefined | NeedDeserialize | Synced | NeedSerialize | NeedSyncStructure

  /** An in-memory value, told apart by the identity of the object that holds it. */
  datatype Value =
    | Component(id: nat, typ: string, data: string, fields: map<Name, Field>)
    | Data(id: nat, data: string)
    | Pointer(target: Path)
    | Deferred(id: nat)

  datatype Field = SubField(slot: Slot) | SubMap(items: map<Name, Slot>) | NilMap

  /**
    A field of a component value: cleared, backed by the child node of its name, backed by such a
    node but still holding the object it points to, or holding a value that has no node yet.
   */
  datatype Slot = Empty | Linked | LinkedDeferred(id: nat) | Fresh(v: Value)

  datatype Item = Item(ser: Option<SerializedNode>, value: Option<Value>, state: ValueState)

  const PLACEHOLDER := Item(None, None, Undefined)

  datatype Tree = Tree(item: Item, kids: map<Name, Tree>)

  // ------------------------------------------------------------- paths

  predicate Has(t: Tree, p: Path) {
    p == [] || (p[0] in t.kids && Has(t.kids[p[0]], p[1..]))
  }

  function FindNode(t: Tree, p: Path): (r: Option<Tree>)
    ensures r.Some? <==> Has(t, p)
  {
    if p == [] then Some(t)
    else if p[0] in t.kids then FindNode(t.kids[p[0]], p[1..])
    else None
  }

  function ItemAt(t: Tree, p: Path): Item
    requires Has(t, p)
  {
    FindNode(t, p).value.item
  }

  function Prefixed(k: Name, s: set<Path>): (r: set<Path>)
    ensures forall p :: p in r <==> p != [] && p[0] == k && p[1..] in s
  {
    var r := set q | q in s :: [k] + q;
    assert forall p: Path :: p != [] ==> p == [p[0]] + p[1..];
    r
  }

  function Paths(t: Tree): (r: set<Path>)
    ensures forall p :: p in r <==> Has(t, p)
  {
    assert forall p: Path :: p != [] && Has(t, p) ==> p in Prefixed(p[0], Paths(t.kids[p[0]]));
    {[]} + set k, p | k in t.kids && p in Prefixed(k, Paths(t.kids[k])) :: p
  }

  /** The tree as persistence and replication see it: path to node. */
  function Flat(t: Tree): (m: map<Path, Item>)
    ensures m.Keys == Paths(t)
  {
    map p | p in Paths(t) :: ItemAt(t, p)
  }

  ghost predicate PrefixClosed(s: set<Path>) {
    forall p, n :: p in s && 0 <= n < |p| ==> p[..n] in s
  }

  lemma PrefixIn(s: set<Path>, p: Path, q: Path)
    requires PrefixClosed(s) && p in s && q <= p
    ensures q in s
  {
    assert p[..|q|] == q;
    if |q| == |p| {
      assert p == q;
    }
  }

  lemma {:induction false} TreeIsPrefixClosed(t: Tree, p: Path, n: nat)
    requires Has(t, p) && n <= |p|
    ensures Has(t, p[..n])
  {
    if n == 0 {
    } else {
      TreeIsPrefixClosed(t.kids[p[0]], p[1..], n - 1);
      assert p[..n][1..] == p[1..][..n - 1];
    }
  }

  /** Descending by a concatenation is descending twice. */
  lemma {:induction false} FindSplit(t: Tree, p: Path, q: Path)
    ensures FindNode(t, p + q) == if Has(t, p) then FindNode(FindNode(t, p).value, q) else None
  {
    if p == [] {
      assert p + q == q;
    } else if p[0] in t.kids {
      assert (p + q)[1..] == p[1..] + q;
      FindSplit(t.kids[p[0]], p[1..], q);
    }
  }

  // --------------------------------------------------------------- keys

  /**
    The key a node is stored and reported under: its path, and whether the last name is written
    with the separator for items of a collection.
   */
  datatype NodeKey = NodeKey(path: Path, item: bool)

  predicate CollectionNode(item: Item) {
    item.ser.Some? && item.ser.value.attrs.CollectionAttributes?
  }

  function KeyAt(t: Tree, p: Path): (k: NodeKey)
    ensures k.path == p
  {
    NodeKey(p, |p| > 1 && Has(t, p[..|p| - 1]) && CollectionNode(ItemAt(t, p[..|p| - 1])))
  }

  /** The tree has a node with this key. */
  predicate InTree(t: Tree, k: NodeKey) {
    Has(t, k.path) && KeyAt(t, k.path) == k
  }

  /** The same, read off the flattened tree. */
  function KeyIn(nodes: map<Path, Item>, p: Path): (k: NodeKey)
    ensures k.path == p
  {
    NodeKey(p, |p| > 1 && p[..|p| - 1] in nodes && CollectionNode(nodes[p[..|p| - 1]]))
  }

  lemma KeyInFlat(t: Tree, p: Path)
    ensures KeyIn(Flat(t), p) == KeyAt(t, p)
  {
    hide Has, FindNode;
    if |p| > 1 && Has(t, p[..|p| - 1]) {
      assert p[..|p| - 1] in Flat(t) && Flat(t)[p[..|p| - 1]] == ItemAt(t, p[..|p| - 1]);
    }
  }

  // ---------------------------------------------------- replacing a node

  function UpdateAt(t: Tree, p: Path, item: Item): Tree
    requires Has(t, p)
  {
    if p == [] then t.(item := item)
    else t.(kids := t.kids[p[0] := UpdateAt(t.kids[p[0]], p[1..], item)])
  }

  lemma {:induction false} UpdatePath(t: Tree, p: Path, item: Item, q: Path)
    requires Has(t, p)
    ensures Has(UpdateAt(t, p, item), q) <==> Has(t, q)
    ensures Has(t, q) ==> ItemAt(UpdateAt(t, p, item), q) == if q == p then item else ItemAt(t, q)
  {
    if p == [] || q == [] {
    } else if p[0] == q[0] {
      UpdatePath(t.kids[p[0]], p[1..], item, q[1..]);
      assert p == [p[0]] + p[1..] && q == [q[0]] + q[1..];
    }
  }

  /** The same shape with other nodes: what a walk that changes nodes in place leaves behind. */
  function Regrow(t: Tree, nodes: map<Path, Item>, at: Path): Tree
  {
    Tree(if at in nodes then nodes[at] else t.item,
         map k | k in t.kids :: Regrow(t.kids[k], nodes, at + [k]))
  }

  lemma {:induction false} RegrowPath(t: Tree, nodes: map<Path, Item>, at: Path, q: Path)
    ensures Has(Regrow(t, nodes, at), q) <==> Has(t, q)
    ensures Has(t, q) && at + q in nodes ==> ItemAt(Regrow(t, nodes, at), q) == nodes[at + q]
    decreases |q|
  {
    if q == [] {
      assert at + q == at;
    } else if q[0] in t.kids {
      assert at + [q[0]] + q[1..] == at + q;
      RegrowPath(t.kids[q[0]], nodes, at + [q[0]], q[1..]);
    }
  }

  lemma FlatRegrow(t: Tree, nodes: map<Path, Item>)
    requires nodes.Keys == Paths(t)
    ensures Flat(Regrow(t, nodes, [])) == nodes
  {
    forall q ensures Has(Regrow(t, nodes, []), q) <==> Has(t, q) {
      RegrowPath(t, nodes, [], q);
    }
    forall q | Has(t, q) ensures ItemAt(Regrow(t, nodes, []), q) == nodes[q] {
      RegrowPath(t, nodes, [], q);
      assert [] + q == q;
    }
  }

  // ------------------------------------------- placing a serialized node

  /** Walks down, making empty nodes where the path is missing, and fills in the last one. */
  function SetSerialized(t: Tree, p: Path, ser: SerializedNode): Tree
    decreases |p|
  {
    if p == [] then t.(item := Item(Some(ser), t.item.value, NeedDeserialize))
    else
      var kid := if p[0] in t.kids then t.kids[p[0]] else Tree(PLACEHOLDER, map[]);
      t.(kids := t.kids[p[0] := SetSerialized(kid, p[1..], ser)])
  }

  /** Only the path itself and its missing ancestors change. */
  lemma {:induction false} SetPath(t: Tree, p: Path, ser: SerializedNode, q: Path)
    ensures Has(SetSerialized(t, p, ser), q) <==> Has(t, q) || q <= p
    ensures q <= p || Has(t, q) ==>
      ItemAt(SetSerialized(t, p, ser), q) ==
        if q == p then Item(Some(ser), if Has(t, p) then ItemAt(t, p).value else None, NeedDeserialize)
        else if Has(t, q) then ItemAt(t, q)
        else PLACEHOLDER
    decreases |p|
  {
    if p == [] || q == [] {
    } else if p[0] == q[0] {
      var kid := if p[0] in t.kids then t.kids[p[0]] else Tree(PLACEHOLDER, map[]);
      SetPath(kid, p[1..], ser, q[1..]);
      assert p == [p[0]] + p[1..] && q == [q[0]] + q[1..];
      assert q <= p <==> q[1..] <= p[1..];
    }
  }

  // ------------------------------------------------------------ removal

  /** Detaches the node at `p` with everything below it; the root only loses its children. */
  function Delete(t: Tree, p: Path): Tree {
    if p == [] then t.(kids := map[])
    else if p[0] !in t.kids then t
    else if |p| == 1 then t.(kids := t.kids - {p[0]})
    else t.(kids := t.kids[p[0] := Delete(t.kids[p[0]], p[1..])])
  }

  lemma {:induction false} DeletePath(t: Tree, p: Path, q: Path)
    ensures Has(Delete(t, p), q) <==> Has(t, q) && (q == [] || !(p <= q))
    ensures Has(Delete(t, p), q) ==> ItemAt(Delete(t, p), q) == ItemAt(t, q)
  {
    if p == [] || q == [] {
    } else {
      assert p == [p[0]] + p[1..] && q == [q[0]] + q[1..];
      if p[0] == q[0] {
        assert p <= q <==> p[1..] <= q[1..];
        if |p| > 1 && p[0] in t.kids {
          DeletePath(t.kids[p[0]], p[1..], q[1..]);
        }
      }
    }
  }

  /** The node and everything below it. */
  function Below(t: Tree, p: Path): (r: set<Path>)
    ensures forall q :: q in r <==> Has(t, q) && p <= q
  {
    set q | q in Paths(t) && p <= q
  }
}
