/**
  Fields that point at another component or data object. Within a transaction they hold the
  object; when it closes they are turned into paths, and reading them must not notice.
 */
module Pointers {
  import opened Wrappers
  import opened Versions
  import opened Tasks
  import opened Trees
  import opened StructureSync

  predicate Hydrated(item: Item) {
    && item.ser.Some? && item.ser.value.attrs.ComponentAttributes?
    && item.value.Some? && item.value.value.Component?
  }

  predicate DataNode(item: Item) {
    item.ser.Some? && item.ser.value.attrs.DataAttributes?
  }

  /** The object a field still has to be turned into a path for. Items of maps are not looked at. */
  function DeferredId(item: Item, k: Name): Option<nat> {
    if !Hydrated(item) || k !in item.value.value.fields then None
    else match item.value.value.fields[k]
      case SubField(LinkedDeferred(id)) => Some(id)
      case _ => None
  }

  /** The node at `r` is the node of object `id`. */
  predicate Holds(item: Item, id: nat) {
    || (Hydrated(item) && item.value.value.id == id)
    || (DataNode(item) && item.value.Some? && item.value.value.Data? && item.value.value.id == id)
  }

  function Holders(t: Tree, id: nat): (r: set<Path>)
    ensures forall p :: p in r <==> Has(t, p) && Holds(ItemAt(t, p), id)
  {
    set p | p in Paths(t) && Holds(ItemAt(t, p), id)
  }

  function FieldPairs(t: Tree): (r: set<(Path, Name)>)
    ensures forall p, k :: (p, k) in r <==>
      Has(t, p) && Hydrated(ItemAt(t, p)) && k in ItemAt(t, p).value.value.fields
  {
    set p, k | p in Paths(t) && Hydrated(ItemAt(t, p)) && k in ItemAt(t, p).value.value.fields :: (p, k)
  }

  // ------------------------------------------------------ reading a field

  /** What reading a field yields: nothing, an object, the object a node will be loaded into, or an error. */
  datatype Got = Nothing | Object(id: nat) | LoadedFrom(node: Path) | Mismatch

  function NodeObject(item: Item, at: Path): Got {
    if item.value.None? then LoadedFrom(at)
    else match item.value.value
      case Component(id, _, _, _) => Object(id)
      case Data(id, _) => Object(id)
      case _ => Mismatch
  }

  function Follow(root: Tree, path: Path): Got {
    match FindNode(root, path)
    case None => Nothing
    case Some(t) =>
      if t.item.ser.None? || t.item.ser.value.attrs.PointerAttributes? || t.item.ser.value.attrs.CollectionAttributes?
      then Mismatch
      else NodeObject(t.item, path)
  }

  /** The path of a pointer node, from memory or from its serialized form. */
  function PointerPath(item: Item): Path
    requires PointerNode(item)
  {
    match item.value
    case Some(Pointer(path)) => path
    case _ => item.ser.value.attrs.target
  }

  function Get(root: Tree, owner: Path, k: Name): Got
    requires Has(root, owner) && Hydrated(ItemAt(root, owner))
  {
    var fields := ItemAt(root, owner).value.value.fields;
    if k !in fields then Nothing
    else match fields[k]
      case SubField(Fresh(v)) =>
        (match v
         case Component(id, _, _, _) => Object(id)
         case Data(id, _) => Object(id)
         case Deferred(id) => Object(id)
         case Pointer(_) => Mismatch)
      case SubField(LinkedDeferred(id)) => Object(id)
      case SubField(Linked) =>
        (match FindNode(root, owner + [k])
         case None => Nothing
         case Some(t) =>
           if PointerNode(t.item) then Follow(root, PointerPath(t.item))
           else NodeObject(t.item, owner + [k]))
      case _ => Nothing
  }

  // -------------------------------------------------------- resolution

  function SettleField(f: Field): Field {
    match f
    case SubField(LinkedDeferred(_)) => SubField(Linked)
    case _ => f
  }

  ghost function SettledFields(q: Path, fields: map<Name, Field>, left: set<(Path, Name)>): map<Name, Field> {
    map k | k in fields :: if (q, k) in left then fields[k] else SettleField(fields[k])
  }

  /** How a node looks once every field pair outside `left` has been dealt with. */
  ghost predicate ResolvedItem(t0: Tree, q: Path, item: Item, left: set<(Path, Name)>)
    requires Has(t0, q)
  {
    var before := ItemAt(t0, q);
    && item.ser == before.ser && item.state == before.state
    && if Hydrated(before) then
         item.value == Some(before.value.value.(fields := SettledFields(q, before.value.value.fields, left)))
       else if WasDeferred(t0, q) && (q[..|q| - 1], q[|q| - 1]) !in left then
         && item.value.Some? && item.value.value.Pointer?
         && item.value.value.target in Holders(t0, OwnerId(t0, q))
       else item.value == before.value
  }

  /** The node at `q` stands for a pointer field of its parent that is still to be resolved. */
  ghost predicate WasDeferred(t0: Tree, q: Path) {
    && q != [] && Has(t0, q[..|q| - 1])
    && DeferredId(ItemAt(t0, q[..|q| - 1]), q[|q| - 1]).Some?
  }

  ghost function OwnerId(t0: Tree, q: Path): nat
    requires WasDeferred(t0, q)
  {
    DeferredId(ItemAt(t0, q[..|q| - 1]), q[|q| - 1]).value
  }

  ghost predicate Resolved(t0: Tree, t: Tree, left: set<(Path, Name)>) {
    forall q :: (Has(t, q) <==> Has(t0, q)) && (Has(t, q) ==> ResolvedItem(t0, q, ItemAt(t, q), left))
  }

  /** A pending pointer field has a pointer node under its name. */
  lemma {:induction false} DeferredHasNode(t: Tree, p: Path, k: Name)
    requires Aligned(t) && Has(t, p) && DeferredId(ItemAt(t, p), k).Some?
    ensures Has(t, p + [k]) && PointerNode(ItemAt(t, p + [k]))
    decreases |p|
  {
    if p == [] {
      OneDown(t, p + [k]);
    } else {
      assert (p + [k])[1..] == p[1..] + [k];
      DeferredHasNode(t.kids[p[0]], p[1..], k);
    }
  }

  /** Where pointers were resolved, each pending one had an object with a node. */
  lemma ResolvedHasHolders(t0: Tree, t: Tree, p: Path, k: Name)
    requires Aligned(t0) && Resolved(t0, t, {}) && Has(t0, p) && DeferredId(ItemAt(t0, p), k).Some?
    ensures Holders(t0, DeferredId(ItemAt(t0, p), k).value) != {}
  {
    hide Aligned, Has, FindNode, DeferredId;
    DeferredHasNode(t0, p, k);
    var q := p + [k];
    assert q[..|q| - 1] == p && q[|q| - 1] == k;
    assert Has(t, q) && ResolvedItem(t0, q, ItemAt(t, q), {});
    assert OwnerId(t0, q) == DeferredId(ItemAt(t0, p), k).value;
  }

  method ResolveDeferredPointers(root: Tree) returns (r: Result<Tree>)
    requires Aligned(root)
    ensures r.Success? ==> Resolved(root, r.value, {})
    ensures r.Success? <==>
      forall p, k :: Has(root, p) && DeferredId(ItemAt(root, p), k).Some? ==>
        Holders(root, DeferredId(ItemAt(root, p), k).value) != {}
  {
    hide Resolved, ResolvedItem, Aligned, Has, FindNode, FieldPairs, Holders, PointTo;
    var t, left := root, FieldPairs(root);
    NothingResolvedYet(root);
    while left != {}
      invariant left <= FieldPairs(root)
      invariant Resolved(root, t, left)
      invariant forall p, k :: Has(root, p) && DeferredId(ItemAt(root, p), k).Some? && (p, k) !in left ==>
        Holders(root, DeferredId(ItemAt(root, p), k).value) != {}
      decreases left
    {
      var pair :| pair in left;
      var p, k := pair.0, pair.1;
      assert (p, k) in FieldPairs(root);
      PendingField(root, t, left, p, k);
      var id := DeferredId(ItemAt(t, p), k);
      if id.Some? {
        SameHolders(root, t, left, id.value);
        var holders := Holders(t, id.value);
        if holders == {} {
          return Failure("failed to resolve deferred pointer during transaction close");
        }
        var path :| path in holders;
        ResolvedStep(root, t, left, p, k, path);
        t := PointTo(t, p, k, path);
      } else {
        NothingToResolve(root, t, left, p, k);
      }
      left := left - {pair};
    }
    r := Success(t);
  }

  function PointTo(t: Tree, p: Path, k: Name, path: Path): Tree
    requires Has(t, p) && Has(t, p + [k]) && DeferredId(ItemAt(t, p), k).Some?
  {
    var owner, node := ItemAt(t, p), ItemAt(t, p + [k]);
    var v := owner.value.value;
    UpdatePath(t, p + [k], node.(value := Some(Pointer(path))), p);
    UpdateAt(UpdateAt(t, p + [k], node.(value := Some(Pointer(path)))), p,
             owner.(value := Some(v.(fields := v.fields[k := SubField(Linked)]))))
  }

  lemma SameHolders(t0: Tree, t: Tree, left: set<(Path, Name)>, id: nat)
    requires Resolved(t0, t, left) && Aligned(t0)
    ensures Holders(t, id) == Holders(t0, id)
  {
    hide Aligned, Resolved, Has, FindNode, Holders;
    forall p ensures p in Holders(t, id) <==> p in Holders(t0, id) {
      SameNode(t0, t, left, p);
    }
  }

  /** Neither value is there, or both are the same object. */
  ghost predicate SameObject(a: Option<Value>, b: Option<Value>) {
    if a.Some? && b.Some? && a.value.Component? then b.value.Component? && a.value.id == b.value.id
    else a == b
  }

  /** Resolution touches the fields of components and the values of pointer nodes, nothing else. */
  lemma SameNode(t0: Tree, t: Tree, left: set<(Path, Name)>, q: Path)
    requires Resolved(t0, t, left) && Aligned(t0)
    ensures Has(t, q) <==> Has(t0, q)
    ensures Has(t, q) ==>
      var before, after := ItemAt(t0, q), ItemAt(t, q);
      after.ser == before.ser && (PointerNode(before) || SameObject(before.value, after.value))
  {
    hide Aligned, Has, FindNode, ResolvedItem, SameObject;
    assert Has(t, q) <==> Has(t0, q);
    if Has(t, q) {
      assert ResolvedItem(t0, q, ItemAt(t, q), left);
      SameItem(t0, q, ItemAt(t, q), left);
    }
  }

  lemma SameItem(t0: Tree, q: Path, item: Item, left: set<(Path, Name)>)
    requires Has(t0, q) && Aligned(t0) && ResolvedItem(t0, q, item, left)
    ensures var before := ItemAt(t0, q);
      item.ser == before.ser && (PointerNode(before) || SameObject(before.value, item.value))
  {
    hide Aligned, Has, FindNode, SettledFields, Holders, DeferredId, ItemAt;
    if WasDeferred(t0, q) {
      DeferredHasNode(t0, q[..|q| - 1], q[|q| - 1]);
      assert q[..|q| - 1] + [q[|q| - 1]] == q;
    }
  }

  lemma NothingResolvedYet(t: Tree)
    ensures Resolved(t, t, FieldPairs(t))
  {
    forall q | Has(t, q) ensures ResolvedItem(t, q, ItemAt(t, q), FieldPairs(t)) {
      if Hydrated(ItemAt(t, q)) {
        var fields := ItemAt(t, q).value.value.fields;
        assert SettledFields(q, fields, FieldPairs(t)) == fields;
      }
    }
  }

  /** A field still waiting is as it was. */
  lemma PendingField(t0: Tree, t: Tree, left: set<(Path, Name)>, p: Path, k: Name)
    requires Aligned(t0) && Resolved(t0, t, left) && (p, k) in left && left <= FieldPairs(t0)
    ensures Has(t0, p) && Has(t, p) && DeferredId(ItemAt(t, p), k) == DeferredId(ItemAt(t0, p), k)
    ensures DeferredId(ItemAt(t, p), k).Some? ==> Has(t, p + [k])
  {
    assert (p, k) in FieldPairs(t0);
    assert Has(t, p) <==> Has(t0, p);
    assert ResolvedItem(t0, p, ItemAt(t, p), left);
    if DeferredId(ItemAt(t, p), k).Some? {
      DeferredHasNode(t0, p, k);
      assert Has(t, p + [k]) <==> Has(t0, p + [k]);
    }
  }

  lemma SettleOne(q: Path, fields: map<Name, Field>, left: set<(Path, Name)>, p: Path, k: Name)
    requires q == p ==> k in fields
    ensures SettledFields(q, fields, left - {(p, k)}) ==
      if q == p then SettledFields(q, fields, left)[k := SettleField(fields[k])] else SettledFields(q, fields, left)
  {
  }

  lemma NothingToResolve(t0: Tree, t: Tree, left: set<(Path, Name)>, p: Path, k: Name)
    requires Resolved(t0, t, left) && (p, k) in left && left <= FieldPairs(t0)
    requires Has(t, p) && DeferredId(ItemAt(t, p), k).None?
    ensures Resolved(t0, t, left - {(p, k)})
  {
    hide Has, FindNode, FieldPairs, Holders;
    assert (p, k) in FieldPairs(t0);
    forall q | Has(t, q) ensures ResolvedItem(t0, q, ItemAt(t, q), left - {(p, k)}) {
      assert ResolvedItem(t0, q, ItemAt(t, q), left) && ResolvedItem(t0, p, ItemAt(t, p), left);
      if Hydrated(ItemAt(t0, q)) {
        var fields := ItemAt(t0, q).value.value.fields;
        SettleOne(q, fields, left, p, k);
        assert q == p ==> SettledFields(q, fields, left)[k] == SettleField(fields[k]);
        assert SettledFields(q, fields, left - {(p, k)}) == SettledFields(q, fields, left);
      }
    }
  }

  lemma ResolvedStep(t0: Tree, t: Tree, left: set<(Path, Name)>, p: Path, k: Name, path: Path)
    requires Aligned(t0) && Resolved(t0, t, left) && (p, k) in left && left <= FieldPairs(t0)
    requires Has(t, p) && Has(t, p + [k]) && DeferredId(ItemAt(t, p), k).Some?
    requires path in Holders(t0, DeferredId(ItemAt(t, p), k).value)
    ensures Resolved(t0, PointTo(t, p, k, path), left - {(p, k)})
  {
    hide ResolvedItem, Aligned, Holders;
    forall q ensures (Has(PointTo(t, p, k, path), q) <==> Has(t0, q))
      && (Has(t0, q) ==> ResolvedItem(t0, q, ItemAt(PointTo(t, p, k, path), q), left - {(p, k)}))
    {
      PointToPath(t, p, k, path, q);
      if Has(t0, q) {
        ResolvedStepAt(t0, t, left, p, k, path, q);
      }
    }
  }

  function PointedItem(item: Item, p: Path, k: Name, path: Path, q: Path): Item
    requires q == p ==> Hydrated(item)
  {
    if q == p then
      var v := item.value.value;
      item.(value := Some(v.(fields := v.fields[k := SubField(Linked)])))
    else if q == p + [k] then item.(value := Some(Pointer(path)))
    else item
  }

  lemma PointToPath(t: Tree, p: Path, k: Name, path: Path, q: Path)
    requires Has(t, p) && Has(t, p + [k]) && DeferredId(ItemAt(t, p), k).Some?
    ensures Has(PointTo(t, p, k, path), q) <==> Has(t, q)
    ensures Has(t, q) ==> ItemAt(PointTo(t, p, k, path), q) == PointedItem(ItemAt(t, q), p, k, path, q)
  {
    var owner, node := ItemAt(t, p), ItemAt(t, p + [k]);
    var v, pointer := owner.value.value, node.(value := Some(Pointer(path)));
    UpdatePath(t, p + [k], pointer, p);
    UpdatePath(t, p + [k], pointer, q);
    var linked := v.(fields := v.fields[k := SubField(Linked)]);
    UpdatePath(UpdateAt(t, p + [k], pointer), p, owner.(value := Some(linked)), q);
  }

  lemma ResolvedStepAt(t0: Tree, t: Tree, left: set<(Path, Name)>, p: Path, k: Name, path: Path, q: Path)
    requires Aligned(t0) && Resolved(t0, t, left) && (p, k) in left && left <= FieldPairs(t0)
    requires Has(t, p) && Has(t, p + [k]) && DeferredId(ItemAt(t, p), k).Some?
    requires path in Holders(t0, DeferredId(ItemAt(t, p), k).value)
    requires Has(t0, q) && Has(PointTo(t, p, k, path), q)
    ensures ResolvedItem(t0, q, ItemAt(PointTo(t, p, k, path), q), left - {(p, k)})
  {
    hide *;
    PointToPath(t, p, k, path, q);
    assert (p, k) in FieldPairs(t0);
    DeferredHasNode(t0, p, k) by { PendingField(t0, t, left, p, k); }
    ResolvedAt(t0, t, left, q);
    ResolvedAt(t0, t, left, p);
    StepItem(t0, q, ItemAt(t, q), ItemAt(t, p), left, p, k, path);
  }

  lemma ResolvedAt(t0: Tree, t: Tree, left: set<(Path, Name)>, q: Path)
    requires Resolved(t0, t, left) && Has(t0, q)
    ensures Has(t, q) && ResolvedItem(t0, q, ItemAt(t, q), left)
  {
    assert Has(t, q) <==> Has(t0, q);
  }

  lemma StepItem(
    t0: Tree, q: Path, item: Item, owner: Item, left: set<(Path, Name)>, p: Path, k: Name, path: Path)
    requires Has(t0, q) && Has(t0, p) && (p, k) in FieldPairs(t0) && (p, k) in left
    requires ResolvedItem(t0, q, item, left) && ResolvedItem(t0, p, owner, left)
    requires q == p ==> item == owner
    requires DeferredId(owner, k).Some? && path in Holders(t0, DeferredId(owner, k).value)
    requires q == p + [k] ==> PointerNode(ItemAt(t0, q))
    ensures q == p ==> Hydrated(item)
    ensures ResolvedItem(t0, q, PointedItem(item, p, k, path, q), left - {(p, k)})
  {
    hide Holders, Has, FindNode, ItemAt, FieldPairs;
    var last := p + [k];
    assert last[..|last| - 1] == p && last[|last| - 1] == k;
    if q == p {
      SettleOne(q, ItemAt(t0, q).value.value.fields, left, p, k);
    } else if q == last {
      assert OwnerId(t0, q) == DeferredId(owner, k).value;
    } else {
      if q != [] {
        assert q == q[..|q| - 1] + [q[|q| - 1]];
      }
      if Hydrated(ItemAt(t0, q)) {
        SettleOne(q, ItemAt(t0, q).value.value.fields, left, p, k);
      }
    }
  }

  /**
    Resolution is invisible to readers: every sub-field of every component in memory reads as the
    same object before and after.
   */
  lemma ResolutionKeepsMeaning(t0: Tree, t: Tree, owner: Path, k: Name)
    requires Aligned(t0) && Resolved(t0, t, {})
    requires Has(t0, owner) && Hydrated(ItemAt(t0, owner))
    ensures Has(t, owner) && Hydrated(ItemAt(t, owner))
    ensures Get(t, owner, k) == Get(t0, owner, k)
  {
    hide Aligned, Has, FindNode, Holders;
    assert ResolvedItem(t0, owner, ItemAt(t, owner), {});
    var fields := ItemAt(t0, owner).value.value.fields;
    if k in fields && fields[k].SubField? && Has(t0, owner + [k]) {
      var p := owner + [k];
      assert p[..|p| - 1] == owner && p[|p| - 1] == k;
      assert ResolvedItem(t0, p, ItemAt(t, p), {});
      if fields[k].slot.LinkedDeferred? {
        DeferredHasNode(t0, owner, k);
        FollowSame(t0, t, PointerPath(ItemAt(t, p)));
      } else if PointerNode(ItemAt(t0, p)) {
        FollowSame(t0, t, PointerPath(ItemAt(t0, p)));
      }
    } else if DeferredId(ItemAt(t0, owner), k).Some? {
      DeferredHasNode(t0, owner, k);
    }
  }

  /** Following a path meets the same object in both trees. */
  lemma FollowSame(t0: Tree, t: Tree, path: Path)
    requires Aligned(t0) && Resolved(t0, t, {})
    ensures Follow(t, path) == Follow(t0, path)
  {
    hide Aligned, Resolved, Has, FindNode;
    SameNode(t0, t, {}, path);
  }
}
