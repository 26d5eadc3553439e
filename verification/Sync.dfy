/**
  Structure synchronisation: the tree of nodes is rebuilt from what the fields of the dirty
  component values hold, and the paths that leave the tree are reported as deleted.
 */
module StructureSync {
  import opened Wrappers
  import opened Versions
  import opened Tasks
  import opened Trees

  // ------------------------------------------------- nodes for new values

  function LinkSlot(s: Slot): Slot {
    match s
    case Fresh(Deferred(id)) => LinkedDeferred(id)
    case Fresh(_) => Linked
    case _ => s
  }

  function LinkField(f: Field): Field {
    match f
    case SubField(s) => SubField(LinkSlot(s))
    case SubMap(m) => SubMap(map k | k in m :: LinkSlot(m[k]))
    case NilMap => f
  }

  /** The value once every field that got a node points at it. */
  function Link(v: Value): Value {
    match v
    case Component(_, _, _, fields) => v.(fields := map k | k in fields :: LinkField(fields[k]))
    case _ => v
  }

  function NewAttributes(v: Value): Attributes {
    match v
    case Component(_, _, _, _) => ComponentAttributes("", [], [])
    case Data(_, _) => DataAttributes
    case Pointer(_) => PointerAttributes([])
    case Deferred(_) => PointerAttributes([])
  }

  function NewItem(v: Value, next: VT): Item {
    Item(Some(SerializedNode(next, ZERO, NewAttributes(v), "")), Some(Link(v)), NeedSerialize)
  }

  function NewCollection(next: VT): Item {
    Item(Some(SerializedNode(next, ZERO, CollectionAttributes, "")), None, NeedSerialize)
  }

  /** The subtree made for a value that had no node: one node per non-empty field, all the way down. */
  function Build(v: Value, next: VT): Tree {
    match v
    case Component(_, _, _, fields) =>
      Tree(NewItem(v, next),
           map k | k in fields && FieldKeeps(fields[k], false) ::
             match fields[k]
             case SubField(s) => Build(s.v, next)
             case NilMap => Tree(NewCollection(next), map[])
             case SubMap(m) =>
               Tree(NewCollection(next), map key | key in m && m[key].Fresh? :: Build(m[key].v, next)))
    case _ => Tree(NewItem(v, next), map[])
  }

  // ------------------------------------------------------- the recursion

  /** Whether a field keeps or gets a child, given that a child of its name exists or not. */
  predicate FieldKeeps(f: Field, hasKid: bool) {
    match f
    case SubField(s) => SlotKeeps(s, hasKid)
    case SubMap(m) => m != map[]
    case NilMap => false
  }

  predicate SlotKeeps(s: Slot, hasKid: bool) {
    s.Fresh? || (!s.Empty? && hasKid)
  }

  /** A component whose value asks for its children to be rebuilt. */
  predicate Structural(item: Item) {
    item.state == NeedSyncStructure && item.value.Some? && item.value.value.Component?
  }

  /** The walk goes on below a linked child only if it is a component that is in memory. */
  predicate Descends(t: Tree) {
    t.item.ser.Some? && t.item.ser.value.attrs.ComponentAttributes? && t.item.value.Some?
  }

  function SettleCollection(item: Item): Item {
    if item.state == NeedSyncStructure then item.(state := NeedSerialize) else item
  }

  function SyncSubComponents(t: Tree, next: VT): Tree
    decreases t, 2
  {
    if !Structural(t.item) then
      t.(kids := map k | k in t.kids :: SyncSubComponents(t.kids[k], next))
    else
      var fields := t.item.value.value.fields;
      Tree(t.item.(value := Some(Link(t.item.value.value)), state := NeedSerialize),
           map k | k in fields && FieldKeeps(fields[k], k in t.kids) :: SyncField(fields[k], k, t, next))
  }

  function SyncField(f: Field, k: Name, t: Tree, next: VT): Tree
    requires FieldKeeps(f, k in t.kids)
    decreases t, 1
  {
    match f
    case SubField(s) => SyncSubField(s, k, t, next)
    case SubMap(m) =>
      if k in t.kids then
        var c := t.kids[k];
        Tree(SettleCollection(c.item), SyncItems(m, c, next))
      else
        Tree(NewCollection(next), map key | key in m && m[key].Fresh? :: Build(m[key].v, next))
  }

  function SyncItems(m: map<Name, Slot>, c: Tree, next: VT): map<Name, Tree>
    decreases c, 1
  {
    map key | key in m && SlotKeeps(m[key], key in c.kids) :: SyncSubField(m[key], key, c, next)
  }

  function SyncSubField(s: Slot, k: Name, t: Tree, next: VT): Tree
    requires SlotKeeps(s, k in t.kids)
    decreases t, 0
  {
    if s.Fresh? then Build(s.v, next)
    else if s.Linked? && Descends(t.kids[k]) then SyncSubComponents(t.kids[k], next)
    else t.kids[k]
  }

  // -------------------------------------------- reference: path by path

  /** What becomes of an existing node. */
  datatype Fate = Gone | Replaced | Kept | Visited | Regrouped

  function SlotFate(s: Slot, kid: Tree): Fate {
    match s
    case Empty => Gone
    case Fresh(_) => Replaced
    case Linked => if Descends(kid) then Visited else Kept
    case LinkedDeferred(_) => Kept
  }

  function KidFate(t: Tree, k: Name): Fate
    requires k in t.kids
  {
    if !Structural(t.item) then Visited
    else
      var fields := t.item.value.value.fields;
      if k !in fields then Gone
      else match fields[k]
        case SubField(s) => SlotFate(s, t.kids[k])
        case _ => if FieldKeeps(fields[k], true) then Regrouped else Gone
  }

  function ItemsOf(t: Tree, k: Name): map<Name, Slot>
    requires k in t.kids && KidFate(t, k) == Regrouped
  {
    t.item.value.value.fields[k].items
  }

  /** The fate of the node at a path, read off the fields along the path. */
  function Where(t: Tree, p: Path): Fate
    requires Has(t, p)
  {
    if p == [] then Visited
    else
      var kid, fate := t.kids[p[0]], KidFate(t, p[0]);
      if fate == Visited then Where(kid, p[1..])
      else if fate != Regrouped || |p| == 1 then fate
      else
        var m, key := ItemsOf(t, p[0]), p[1];
        assert Has(kid, p[1..]) && p[1..] != [] && p[1..][0] == key && p[1..][1..] == p[2..];
        var itemFate := if key in m then SlotFate(m[key], kid.kids[key]) else Gone;
        if itemFate == Visited then Where(kid.kids[key], p[2..]) else itemFate
  }

  /** A node made in this transaction: never serialized, without tasks, and due to be serialized. */
  ghost predicate IsNew(item: Item, next: VT) {
    && item.state == NeedSerialize
    && item.ser.Some? && item.ser.value.initial == next && item.ser.value.last == ZERO
    && (item.ser.value.attrs.ComponentAttributes? ==>
          item.ser.value.attrs.sideEffects == [] && item.ser.value.attrs.pures == [])
  }

  function Revisited(item: Item): Item {
    if Structural(item)
    then item.(value := Some(Link(item.value.value)), state := NeedSerialize)
    else item
  }

  /** The rebuilt tree agrees with the fate of each node, and whatever else it holds is new. */
  ghost predicate Follows(t: Tree, s: Tree, next: VT, p: Path) {
    if !Has(t, p) then Has(s, p) ==> IsNew(ItemAt(s, p), next)
    else match Where(t, p)
      case Gone => !Has(s, p)
      case Replaced => Has(s, p) ==> IsNew(ItemAt(s, p), next)
      case Kept => Has(s, p) && ItemAt(s, p) == ItemAt(t, p)
      case Visited => Has(s, p) && ItemAt(s, p) == Revisited(ItemAt(t, p))
      case Regrouped => Has(s, p) && ItemAt(s, p) == SettleCollection(ItemAt(t, p))
  }

  lemma TwoDown(t: Tree, p: Path)
    requires |p| > 1
    ensures FindNode(t, p) ==
      if p[0] in t.kids && p[1] in t.kids[p[0]].kids then FindNode(t.kids[p[0]].kids[p[1]], p[2..]) else None
  {
    assert p[1..] != [] && p[1..][0] == p[1] && p[1..][1..] == p[2..];
  }

  lemma OneDown(t: Tree, p: Path)
    requires |p| == 1
    ensures FindNode(t, p) == if p[0] in t.kids then Some(t.kids[p[0]]) else None
  {
    assert p[1..] == [];
  }

  lemma {:induction false} BuiltPath(v: Value, next: VT, p: Path)
    requires Has(Build(v, next), p)
    ensures IsNew(ItemAt(Build(v, next), p), next)
    decreases |p|
  {
    if p == [] {
    } else {
      var f := v.fields[p[0]];
      if f.SubField? {
        BuiltPath(f.slot.v, next, p[1..]);
      } else if |p| > 1 {
        TwoDown(Build(v, next), p);
        BuiltPath(f.items[p[1]].v, next, p[2..]);
      } else {
        OneDown(Build(v, next), p);
      }
    }
  }

  /** The recursion through values and nodes refines the reading of fates along each path. */
  lemma {:induction false} SyncPath(t: Tree, next: VT, p: Path)
    ensures Follows(t, SyncSubComponents(t, next), next, p)
    decreases |p|
  {
    var s := SyncSubComponents(t, next);
    if p == [] {
    } else if !Structural(t.item) {
      if p[0] in t.kids {
        SyncPath(t.kids[p[0]], next, p[1..]);
      }
    } else if p[0] in s.kids {
      var f := t.item.value.value.fields[p[0]];
      assert s.kids[p[0]] == SyncField(f, p[0], t, next);
      match f
      case SubField(slot) => SyncSubFieldPath(slot, p[0], t, next, p);
      case SubMap(m) =>
        if |p| == 1 {
          OneDown(s, p);
          OneDown(t, p);
        } else {
          TwoDown(s, p);
          TwoDown(t, p);
          if p[0] in t.kids {
            assert SyncField(f, p[0], t, next).kids == SyncItems(m, t.kids[p[0]], next);
            if p[1] in s.kids[p[0]].kids {
              assert p[1..][0] == p[1] && p[1..][1..] == p[2..];
              SyncSubFieldPath(m[p[1]], p[1], t.kids[p[0]], next, p[1..]);
            }
          } else if Has(s, p) {
            assert p[1] in SyncField(f, p[0], t, next).kids;
            BuiltPath(m[p[1]].v, next, p[2..]);
          }
        }
    }
  }

  lemma {:induction false} SyncSubFieldPath(slot: Slot, k: Name, t: Tree, next: VT, p: Path)
    requires p != [] && p[0] == k && SlotKeeps(slot, k in t.kids)
    ensures var s := SyncSubField(slot, k, t, next);
      if slot.Linked? && Descends(t.kids[k]) then Follows(t.kids[k], s, next, p[1..])
      else if slot.Fresh? then Has(s, p[1..]) ==> IsNew(ItemAt(s, p[1..]), next)
      else s == t.kids[k]
    decreases |p|, 0
  {
    if slot.Fresh? {
      if Has(Build(slot.v, next), p[1..]) {
        BuiltPath(slot.v, next, p[1..]);
      }
    } else if slot.Linked? && Descends(t.kids[k]) {
      SyncPath(t.kids[k], next, p[1..]);
    }
  }

  // ------------------------------------------------- what is reported

  /** Empty maps of a new value: each gets a collection node that is removed again at once. */
  function BuildPhantoms(v: Value): set<Path> {
    if v.Component?
    then set k, p | k in v.fields && p in Prefixed(k, FieldPhantoms(v.fields[k])) :: p
    else {}
  }

  function FieldPhantoms(f: Field): set<Path> {
    match f
    case SubField(Fresh(v)) => BuildPhantoms(v)
    case SubMap(m) =>
      if m == map[] then {[]}
      else set key, p | key in m && m[key].Fresh? && p in Prefixed(key, BuildPhantoms(m[key].v)) :: p
    case _ => {}
  }

  function Phantoms(t: Tree): set<Path>
    decreases t, 2
  {
    if !Structural(t.item)
    then set k, p | k in t.kids && p in Prefixed(k, Phantoms(t.kids[k])) :: p
    else
      var fields := t.item.value.value.fields;
      set k, p | k in fields && p in Prefixed(k, SyncPhantoms(fields[k], k, t)) :: p
  }

  function SyncPhantoms(f: Field, k: Name, t: Tree): set<Path>
    decreases t, 1
  {
    if k !in t.kids then FieldPhantoms(f)
    else match f
      case SubField(s) => SlotPhantoms(s, k, t)
      case SubMap(m) => set key, p | key in m && p in Prefixed(key, SlotPhantoms(m[key], key, t.kids[k])) :: p
      case NilMap => {}
  }

  function SlotPhantoms(s: Slot, k: Name, t: Tree): set<Path>
    decreases t, 0
  {
    if s.Fresh? then BuildPhantoms(s.v)
    else if s.Linked? && k in t.kids && Descends(t.kids[k]) then Phantoms(t.kids[k])
    else {}
  }

  /** The keys of those: a collection is never itself an item. */
  function PhantomKeys(t: Tree): (r: set<NodeKey>)
    ensures forall k :: k in r <==> k.path in Phantoms(t) && !k.item
  {
    var r := set p | p in Phantoms(t) :: NodeKey(p, false);
    assert forall k: NodeKey :: k.path in Phantoms(t) && !k.item ==> k == NodeKey(k.path, false) && k in r;
    r
  }

  /** The keys of the nodes with one fate. */
  function KeysOfFate(t: Tree, f: Fate): (r: set<NodeKey>)
    ensures forall k :: k in r <==> InTree(t, k) && Where(t, k.path) == f
  {
    set p | p in Paths(t) && Where(t, p) == f :: KeyAt(t, p)
  }

  /** The keys one synchronisation adds to the deleted nodes. */
  function Deleted(t: Tree): set<NodeKey> {
    KeysOfFate(t, Gone) + PhantomKeys(t)
  }

  lemma {:induction false} BuildPhantomAbsent(v: Value, next: VT, p: Path)
    requires p in BuildPhantoms(v)
    ensures !Has(Build(v, next), p)
    decreases |p|
  {
    var f, b := v.fields[p[0]], Build(v, next);
    if f.SubField? {
      BuildPhantomAbsent(f.slot.v, next, p[1..]);
    } else if |p| > 1 && f.SubMap? {
      TwoDown(b, p);
      assert p[1..][1..] == p[2..];
      BuildPhantomAbsent(f.items[p[1]].v, next, p[2..]);
    }
  }

  lemma {:induction false} SlotPhantomAbsent(s: Slot, k: Name, t: Tree, next: VT, p: Path)
    requires p in SlotPhantoms(s, k, t) && SlotKeeps(s, k in t.kids)
    ensures !Has(SyncSubField(s, k, t, next), p)
    decreases |p|, 1
  {
    if s.Fresh? {
      BuildPhantomAbsent(s.v, next, p);
    } else {
      PhantomAbsent(t.kids[k], next, p);
    }
  }

  lemma {:induction false} PhantomAbsent(t: Tree, next: VT, p: Path)
    requires p in Phantoms(t)
    ensures !Has(SyncSubComponents(t, next), p)
    decreases |p|, 0
  {
    var s := SyncSubComponents(t, next);
    if !Structural(t.item) {
      PhantomAbsent(t.kids[p[0]], next, p[1..]);
    } else if p[0] in s.kids {
      var f := t.item.value.value.fields[p[0]];
      assert s.kids[p[0]] == SyncField(f, p[0], t, next);
      if f.SubField? {
        SlotPhantomAbsent(f.slot, p[0], t, next, p[1..]);
      } else if |p| > 1 {
        TwoDown(s, p);
        assert p[1..][1..] == p[2..];
        if p[0] !in t.kids {
          assert p[1] in f.items && f.items[p[1]].Fresh?;
          BuildPhantomAbsent(f.items[p[1]].v, next, p[2..]);
        } else if p[1] in s.kids[p[0]].kids {
          assert s.kids[p[0]].kids == SyncItems(f.items, t.kids[p[0]], next);
          assert s.kids[p[0]].kids[p[1]] == SyncSubField(f.items[p[1]], p[1], t.kids[p[0]], next);
          SlotPhantomAbsent(f.items[p[1]], p[1], t.kids[p[0]], next, p[2..]);
        }
      }
    }
  }

  // --------------------------------------------------------- main results

  /**
    Keys that fall out of the tree without being reported: those at and below a node whose field
    was given a new value, unless the new value brings the path back, and as the same kind of child.
   */
  function Orphans(t: Tree, next: VT): (r: set<NodeKey>)
    ensures forall k :: k in r <==>
      && InTree(t, k) && Where(t, k.path) == Replaced
      && !InTree(SyncSubComponents(t, next), k) && k !in PhantomKeys(t)
  {
    set k | k in KeysOfFate(t, Replaced) && !InTree(SyncSubComponents(t, next), k) && k !in PhantomKeys(t)
  }

  predicate Stays(f: Fate) {
    f == Kept || f == Visited || f == Regrouped
  }

  /** A node that stays has a parent that stays. */
  lemma {:induction false} ParentStays(t: Tree, p: Path)
    requires Has(t, p) && p != [] && Stays(Where(t, p))
    ensures Has(t, p[..|p| - 1]) && Stays(Where(t, p[..|p| - 1]))
    decreases |p|
  {
    var q := p[..|p| - 1];
    TreeIsPrefixClosed(t, p, |p| - 1);
    if |p| > 1 {
      var kid, fate := t.kids[p[0]], KidFate(t, p[0]);
      assert q[0] == p[0] && q[1..] == p[1..][..|p[1..]| - 1];
      if fate == Visited {
        ParentStays(kid, p[1..]);
      } else if fate == Regrouped && |p| > 2 {
        TwoDown(t, p);
        TwoDown(t, q);
        assert q[1] == p[1] && q[2..] == p[2..][..|p[2..]| - 1];
        if SlotFate(ItemsOf(t, p[0])[p[1]], kid.kids[p[1]]) == Visited && |p| > 2 {
          ParentStays(kid.kids[p[1]], p[2..]);
        }
      }
    }
  }

  /** A node that stays keeps its key. */
  lemma KeyStays(t: Tree, next: VT, p: Path)
    requires Has(t, p) && Stays(Where(t, p))
    ensures Has(SyncSubComponents(t, next), p) && KeyAt(SyncSubComponents(t, next), p) == KeyAt(t, p)
  {
    hide Has, FindNode, Where, SyncSubComponents;
    SyncPath(t, next, p);
    if |p| > 1 {
      ParentStays(t, p);
      SyncPath(t, next, p[..|p| - 1]);
    }
  }

  /** Reported keys are gone; a key that is gone is reported or orphaned, never both. */
  lemma DeletionsAreReported(t: Tree, next: VT, k: NodeKey)
    ensures k in Deleted(t) ==> !InTree(SyncSubComponents(t, next), k)
    ensures InTree(t, k) && !InTree(SyncSubComponents(t, next), k) ==> (k in Deleted(t) <==> k !in Orphans(t, next))
  {
    hide Has, FindNode, Where, SyncSubComponents, Phantoms, PhantomKeys, KeysOfFate, Orphans;
    SyncPath(t, next, k.path);
    if k.path in Phantoms(t) {
      PhantomAbsent(t, next, k.path);
    }
    if InTree(t, k) && Stays(Where(t, k.path)) {
      KeyStays(t, next, k.path);
    }
  }

  /** What a rebuilt node holds for each child, by the child's fate. */
  lemma KidAfter(t: Tree, next: VT, k: Name)
    requires k in t.kids
    ensures var s := SyncSubComponents(t, next);
      match KidFate(t, k)
      case Gone => k !in s.kids
      case Replaced => k in s.kids
      case Kept => k in s.kids && s.kids[k] == t.kids[k]
      case Visited => k in s.kids && s.kids[k] == SyncSubComponents(t.kids[k], next)
      case Regrouped => k in s.kids && s.kids[k].kids == SyncItems(ItemsOf(t, k), t.kids[k], next)
  {
    var s := SyncSubComponents(t, next);
    if Structural(t.item) && k in s.kids {
      var f := t.item.value.value.fields[k];
      assert s.kids[k] == SyncField(f, k, t, next);
      if f.SubField? {
        assert s.kids[k] == SyncSubField(f.slot, k, t, next);
      }
    }
  }

  /** Only what lay below an overwritten node can be orphaned: the node's own path stays. */
  lemma {:induction false} OverwrittenNodeStays(t: Tree, next: VT, q: Path, k: Name)
    requires Has(t, q) && Has(t, q + [k])
    requires Where(t, q + [k]) == Replaced && Where(t, q) != Replaced
    ensures Has(SyncSubComponents(t, next), q + [k])
    decreases |q|
  {
    var s, p := SyncSubComponents(t, next), q + [k];
    KidAfter(t, next, p[0]);
    if q == [] {
      OneDown(s, p);
    } else {
      assert p[1..] == q[1..] + [k];
      var c := t.kids[q[0]];
      if KidFate(t, q[0]) == Visited {
        OverwrittenNodeStays(c, next, q[1..], k);
      } else {
        TwoDown(s, p);
        TwoDown(t, p);
        var slot := ItemsOf(t, q[0])[p[1]];
        assert s.kids[q[0]].kids[p[1]] == SyncSubField(slot, p[1], c, next);
        if |q| == 1 {
          assert p[2..] == [];
        } else {
          TwoDown(t, q);
          assert p[1] == q[1] && p[2..] == q[2..] + [k];
          OverwrittenNodeStays(c.kids[q[1]], next, q[2..], k);
        }
      }
    }
  }

  /** Where the walk visits a node, it does to the subtree there what it would do to it alone. */
  lemma {:induction false} VisitedSubtree(t: Tree, next: VT, p: Path)
    requires Has(t, p) && Where(t, p) == Visited
    ensures FindNode(SyncSubComponents(t, next), p) == Some(SyncSubComponents(FindNode(t, p).value, next))
    decreases |p|
  {
    if p == [] {
    } else {
      var s, c := SyncSubComponents(t, next), t.kids[p[0]];
      KidAfter(t, next, p[0]);
      if KidFate(t, p[0]) == Visited {
        VisitedSubtree(c, next, p[1..]);
      } else {
        TwoDown(s, p);
        TwoDown(t, p);
        var slot := ItemsOf(t, p[0])[p[1]];
        assert s.kids[p[0]].kids[p[1]] == SyncSubField(slot, p[1], c, next);
        VisitedSubtree(c.kids[p[1]], next, p[2..]);
      }
    }
  }

  /** No node is left above NeedSerialize. */
  ghost predicate Settled(t: Tree) {
    forall p :: Has(t, p) ==> ItemAt(t, p).state != NeedSyncStructure
  }

  /** A node that asks for its structure to be rebuilt but that the walk does not rebuild. */
  ghost predicate Overlooked(t: Tree, p: Path) {
    && Has(t, p) && ItemAt(t, p).state == NeedSyncStructure
    && (Where(t, p) == Kept || (Where(t, p) == Visited && !Structural(ItemAt(t, p))))
  }

  /** One synchronisation settles the tree exactly when it overlooks no dirty node. */
  lemma SettledIff(t: Tree, next: VT)
    ensures Settled(SyncSubComponents(t, next)) <==> forall p :: !Overlooked(t, p)
  {
    var s := SyncSubComponents(t, next);
    forall p | Has(s, p)
      ensures ItemAt(s, p).state == NeedSyncStructure <==> Overlooked(t, p)
    {
      SyncPath(t, next, p);
    }
    forall p | Overlooked(t, p) ensures Has(s, p) {
      SyncPath(t, next, p);
    }
  }

  // --------------------------------------- children and fields agree

  predicate NonEmpty(f: Field) {
    match f
    case SubField(s) => !s.Empty?
    case SubMap(m) => m != map[]
    case NilMap => false
  }

  /** Children are exactly the non-empty fields, items exactly the non-empty map entries, all linked. */
  ghost predicate Matches(fields: map<Name, Field>, t: Tree) {
    && (forall k :: k in t.kids <==> k in fields && NonEmpty(fields[k]))
    && (forall k :: k in fields && fields[k].SubField? ==> !fields[k].slot.Fresh?)
    && (forall k :: k in fields && fields[k].SubField? && fields[k].slot.LinkedDeferred? && k in t.kids ==>
          PointerNode(t.kids[k].item))
    && (forall k :: k in fields && fields[k].SubMap? && k in t.kids ==> ItemsMatch(fields[k].items, t.kids[k]))
  }

  ghost predicate KidMatches(fields: map<Name, Field>, t: Tree, k: Name) {
    && (k in t.kids <==> k in fields && NonEmpty(fields[k]))
    && (k in t.kids ==>
          match fields[k]
          case SubField(s) => !s.Fresh? && (s.LinkedDeferred? ==> PointerNode(t.kids[k].item))
          case SubMap(m) => ItemsMatch(m, t.kids[k])
          case NilMap => true)
  }

  ghost predicate ItemsMatch(m: map<Name, Slot>, c: Tree) {
    && c.item.value.None?
    && forall key :: (key in c.kids <==> key in m && !m[key].Empty?) && (key in m ==> !m[key].Fresh?)
  }

  predicate PointerNode(item: Item) {
    item.ser.Some? && item.ser.value.attrs.PointerAttributes?
  }

  /** A slot that claims a node has one, and a pending pointer has a pointer node. */
  ghost predicate Backed(s: Slot, k: Name, kids: map<Name, Tree>) {
    match s
    case Empty => true
    case Fresh(v) => NewValue(v)
    case Linked => k in kids
    case LinkedDeferred(_) => k in kids && PointerNode(kids[k].item)
  }

  ghost predicate FieldBacked(f: Field, k: Name, t: Tree) {
    match f
    case SubField(s) => Backed(s, k, t.kids)
    case SubMap(m) =>
      && (k in t.kids ==> t.kids[k].item.value.None?)
      && forall key :: key in m ==> Backed(m[key], key, if k in t.kids then t.kids[k].kids else map[])
    case NilMap => true
  }

  /** A value built by a caller: nothing in it has a node yet. */
  ghost predicate NewValue(v: Value) {
    v.Component? ==> forall k :: k in v.fields ==> NewField(v.fields[k])
  }

  ghost predicate NewField(f: Field) {
    match f
    case SubField(s) => s.Empty? || (s.Fresh? && NewValue(s.v))
    case SubMap(m) => forall key :: key in m ==> m[key].Empty? || (m[key].Fresh? && NewValue(m[key].v))
    case NilMap => true
  }

  ghost predicate Aligned(t: Tree) {
    && (t.item.value.Some? && t.item.value.value.Component? ==> Matches(t.item.value.value.fields, t))
    && forall k :: k in t.kids ==> Aligned(t.kids[k])
  }

  /** Before a synchronisation: clean components are aligned, dirty ones at least hold real links. */
  ghost predicate Coherent(t: Tree) {
    NodeCoherent(t) && forall k :: k in t.kids ==> Coherent(t.kids[k])
  }

  ghost predicate NodeCoherent(t: Tree) {
    t.item.value.Some? && t.item.value.value.Component? ==>
      var fields := t.item.value.value.fields;
      if Structural(t.item) then forall k :: k in fields ==> FieldBacked(fields[k], k, t)
      else Matches(fields, t)
  }

  ghost predicate CoherentAt(t: Tree, p: Path) {
    Has(t, p) ==> NodeCoherent(FindNode(t, p).value)
  }

  /** A coherent tree is coherent node by node. */
  lemma {:induction false} CoherentPath(t: Tree, p: Path)
    requires Coherent(t)
    ensures CoherentAt(t, p)
  {
    hide NodeCoherent;
    if p == [] {
    } else if p[0] in t.kids {
      CoherentPath(t.kids[p[0]], p[1..]);
    }
  }

  lemma {:induction false} CoherentFromPaths(t: Tree)
    requires forall p :: CoherentAt(t, p)
    ensures Coherent(t)
  {
    hide NodeCoherent;
    assert CoherentAt(t, []);
    forall k | k in t.kids ensures Coherent(t.kids[k]) {
      forall p ensures CoherentAt(t.kids[k], p) {
        assert ([k] + p)[1..] == p;
        assert CoherentAt(t, [k] + p);
      }
      CoherentFromPaths(t.kids[k]);
    }
  }

  /** The children of the node at a path. */
  lemma KidsAt(t: Tree, p: Path, k: Name)
    requires Has(t, p)
    ensures k in FindNode(t, p).value.kids <==> Has(t, p + [k])
    ensures Has(t, p + [k]) ==> FindNode(t, p).value.kids[k] == FindNode(t, p + [k]).value
  {
    FindSplit(t, p, [k]);
    OneDown(FindNode(t, p).value, [k]);
  }

  /** What coherence reads of the two levels below a node. */
  ghost predicate SameBelow(a: Tree, b: Tree) {
    && a.kids.Keys == b.kids.Keys
    && forall k :: k in a.kids ==> SameKid(a.kids[k], b.kids[k])
  }

  ghost predicate SameKid(a: Tree, b: Tree) {
    && (PointerNode(a.item) <==> PointerNode(b.item))
    && (a.item.value.None? ==> b.item.value.None?)
    && a.kids.Keys == b.kids.Keys
    && forall k :: k in a.kids ==> (PointerNode(a.kids[k].item) <==> PointerNode(b.kids[k].item))
  }

  lemma StaysCoherent(a: Tree, b: Tree)
    requires NodeCoherent(a) && SameBelow(a, b) && b.item.value == a.item.value
    requires Structural(a.item) <==> Structural(b.item)
    ensures NodeCoherent(b)
  {
    if a.item.value.Some? && a.item.value.value.Component? {
      var fields := a.item.value.value.fields;
      if Structural(a.item) {
        forall k | k in fields ensures FieldBacked(fields[k], k, b) {
          assert FieldBacked(fields[k], k, a);
          assert k in a.kids ==> SameKid(a.kids[k], b.kids[k]);
        }
      } else {
        MatchesSame(fields, a, b);
      }
    }
  }

  lemma MatchesSame(fields: map<Name, Field>, a: Tree, b: Tree)
    requires Matches(fields, a) && SameBelow(a, b)
    ensures Matches(fields, b)
  {
    forall k | k in fields && k in b.kids
      ensures fields[k].SubMap? ==> ItemsMatch(fields[k].items, b.kids[k])
      ensures fields[k].SubField? && fields[k].slot.LinkedDeferred? ==> PointerNode(b.kids[k].item)
    {
      assert SameKid(a.kids[k], b.kids[k]);
    }
  }

  lemma {:induction false} AlignedIsCoherent(t: Tree)
    requires Aligned(t) && Settled(t)
    ensures Coherent(t)
  {
    hide Matches;
    assert Has(t, []);
    forall k | k in t.kids ensures Coherent(t.kids[k]) {
      SettledKid(t, k);
      AlignedIsCoherent(t.kids[k]);
    }
  }

  lemma SettledKid(t: Tree, k: Name)
    requires Settled(t) && k in t.kids
    ensures Settled(t.kids[k])
  {
    forall p | Has(t.kids[k], p) ensures ItemAt(t.kids[k], p).state != NeedSyncStructure {
      assert ([k] + p)[1..] == p;
      assert Has(t, [k] + p) && ItemAt(t, [k] + p) == ItemAt(t.kids[k], p);
    }
  }

  lemma {:induction false} SettledIsAligned(t: Tree)
    requires Coherent(t) && Settled(t)
    ensures Aligned(t)
  {
    assert Has(t, []);
    forall k | k in t.kids ensures Aligned(t.kids[k]) {
      SettledKid(t, k);
      SettledIsAligned(t.kids[k]);
    }
  }

  lemma {:induction false} BuiltIsAligned(v: Value, next: VT)
    requires NewValue(v)
    ensures Aligned(Build(v, next))
  {
    hide Matches;
    var b := Build(v, next);
    if v.Component? {
      BuiltMatches(v, next);
      forall k | k in b.kids ensures Aligned(b.kids[k]) {
        assert NewField(v.fields[k]);
        match v.fields[k]
        case SubField(s) => BuiltIsAligned(s.v, next);
        case SubMap(m) =>
          forall key | key in b.kids[k].kids ensures Aligned(b.kids[k].kids[key]) {
            BuiltIsAligned(m[key].v, next);
          }
      }
    }
  }

  lemma BuiltMatches(v: Value, next: VT)
    requires NewValue(v) && v.Component?
    ensures Matches(Link(v).fields, Build(v, next))
  {
    hide Build, ItemsMatch, LinkField, NonEmpty, NewValue;
    forall k ensures KidMatches(Link(v).fields, Build(v, next), k) {
      BuiltKid(v, next, k);
    }
    EachKidMatches(Link(v).fields, Build(v, next));
  }

  lemma BuiltKid(v: Value, next: VT, k: Name)
    requires NewValue(v) && v.Component?
    ensures KidMatches(Link(v).fields, Build(v, next), k)
  {
    hide ItemsMatch;
    var b := Build(v, next);
    if k in v.fields {
      assert NewField(v.fields[k]);
      if k in b.kids && v.fields[k].SubMap? {
        BuiltItems(v.fields[k].items, b.kids[k]);
      }
    }
  }

  lemma BuiltItems(m: map<Name, Slot>, c: Tree)
    requires NewField(SubMap(m)) && c.item.value.None?
    requires forall key :: key in c.kids <==> key in m && m[key].Fresh?
    ensures ItemsMatch(LinkField(SubMap(m)).items, c)
  {
    hide NewValue;
    var linked := LinkField(SubMap(m)).items;
    forall key | key in m ensures (m[key].Fresh? <==> !linked[key].Empty?) && !linked[key].Fresh? {
      assert linked[key] == LinkSlot(m[key]);
    }
  }

  lemma EachKidMatches(fields: map<Name, Field>, t: Tree)
    requires forall k :: KidMatches(fields, t, k)
    ensures Matches(fields, t)
  {
    hide ItemsMatch;
    forall k ensures k in t.kids <==> k in fields && NonEmpty(fields[k]) {
      assert KidMatches(fields, t, k);
    }
    forall k | k in fields && fields[k].SubField? ensures !fields[k].slot.Fresh? {
      assert KidMatches(fields, t, k);
    }
    forall k | k in fields && k in t.kids
      ensures fields[k].SubField? && fields[k].slot.LinkedDeferred? ==> PointerNode(t.kids[k].item)
      ensures fields[k].SubMap? ==> ItemsMatch(fields[k].items, t.kids[k])
    {
      assert KidMatches(fields, t, k);
    }
  }

  lemma {:induction false} SubFieldAligned(slot: Slot, k: Name, t: Tree, next: VT)
    requires Backed(slot, k, t.kids) && SlotKeeps(slot, k in t.kids)
    requires k in t.kids ==> Coherent(t.kids[k])
    requires Settled(SyncSubField(slot, k, t, next))
    ensures Aligned(SyncSubField(slot, k, t, next))
    decreases t, 0
  {
    if slot.Fresh? {
      BuiltIsAligned(slot.v, next);
    } else if slot.Linked? && Descends(t.kids[k]) {
      SyncAligns(t.kids[k], next);
    } else {
      SettledIsAligned(t.kids[k]);
    }
  }

  lemma SyncedItems(m: map<Name, Slot>, k: Name, t: Tree, next: VT)
    requires FieldBacked(SubMap(m), k, t) && FieldKeeps(SubMap(m), k in t.kids)
    ensures var s := SyncField(SubMap(m), k, t, next);
      && ItemsMatch(LinkField(SubMap(m)).items, s)
      && s.kids.Keys <= m.Keys && (k in t.kids ==> s.kids == SyncItems(m, t.kids[k], next))
  {
    hide NewValue, Build, SyncSubField;
    var s, linked := SyncField(SubMap(m), k, t, next), LinkField(SubMap(m)).items;
    assert k in t.kids ==> s.kids == SyncItems(m, t.kids[k], next);
    forall key | key in m ensures (key in s.kids <==> !linked[key].Empty?) && !linked[key].Fresh? {
      assert linked[key] == LinkSlot(m[key]);
      assert Backed(m[key], key, if k in t.kids then t.kids[k].kids else map[]);
    }
  }

  lemma {:induction false} FieldAligned(t: Tree, k: Name, next: VT)
    requires Coherent(t) && Structural(t.item) && k in SyncSubComponents(t, next).kids
    requires Settled(SyncSubComponents(t, next).kids[k])
    ensures Aligned(SyncSubComponents(t, next).kids[k])
    ensures var f := t.item.value.value.fields[k];
      && (f.SubMap? ==> ItemsMatch(LinkField(f).items, SyncSubComponents(t, next).kids[k]))
      && (f.SubField? && LinkSlot(f.slot).LinkedDeferred? ==>
            PointerNode(SyncSubComponents(t, next).kids[k].item))
    decreases t, 1
  {
    hide Settled, Has, FindNode, ItemsMatch, LinkField;
    var s, f := SyncSubComponents(t, next).kids[k], t.item.value.value.fields[k];
    assert s == SyncField(f, k, t, next) && FieldBacked(f, k, t);
    match f
    case SubField(slot) => SubFieldAligned(slot, k, t, next);
    case SubMap(m) =>
      SyncedItems(m, k, t, next);
      forall key | key in s.kids ensures Aligned(s.kids[key]) {
        SettledKid(s, key);
        if k in t.kids {
          assert s.kids[key] == SyncSubField(m[key], key, t.kids[k], next);
          SubFieldAligned(m[key], key, t.kids[k], next);
        } else {
          BuiltIsAligned(m[key].v, next);
        }
      }
  }

  lemma LinkingFillsNothing(f: Field)
    ensures NonEmpty(LinkField(f)) <==> NonEmpty(f)
  {
    if f.SubMap? {
      var m, linked := f.items, LinkField(f).items;
      assert linked.Keys == m.Keys;
      assert m == map[] <==> m.Keys == {};
      assert linked == map[] <==> linked.Keys == {};
    }
  }

  lemma {:induction false} SyncedKid(t: Tree, k: Name, next: VT)
    requires Coherent(t) && Structural(t.item) && Settled(SyncSubComponents(t, next))
    ensures KidMatches(Link(t.item.value.value).fields, SyncSubComponents(t, next), k)
    decreases t, 2
  {
    hide Settled, Has, FindNode, SyncField, ItemsMatch;
    var s, fields := SyncSubComponents(t, next), t.item.value.value.fields;
    if k in fields {
      assert FieldBacked(fields[k], k, t);
      assert Link(t.item.value.value).fields[k] == LinkField(fields[k]);
      LinkingFillsNothing(fields[k]);
      if k in s.kids {
        SettledKid(s, k);
        FieldAligned(t, k, next);
      }
    }
  }

  /**
    After a synchronisation that settles the tree, the children of every component in memory are
    exactly its non-empty fields and the items of every collection exactly the map's entries.
   */
  lemma {:induction false} SyncAligns(t: Tree, next: VT)
    requires Coherent(t) && Settled(SyncSubComponents(t, next))
    ensures Aligned(SyncSubComponents(t, next))
    decreases t, 3
  {
    hide Settled, Has, FindNode, SyncField, ItemsMatch, Matches, KidMatches, FieldBacked;
    var s := SyncSubComponents(t, next);
    forall k | k in s.kids ensures Aligned(s.kids[k]) {
      SettledKid(s, k);
      if Structural(t.item) {
        FieldAligned(t, k, next);
      } else {
        SyncAligns(t.kids[k], next);
      }
    }
    if Structural(t.item) {
      var linked := Link(t.item.value.value).fields;
      forall k ensures KidMatches(linked, s, k) {
        SyncedKid(t, k, next);
      }
      EachKidMatches(linked, s);
    } else if s.item.value.Some? && s.item.value.value.Component? {
      KidsKept(t, s, next);
    }
  }

  lemma KidsKept(t: Tree, s: Tree, next: VT)
    requires Coherent(t) && !Structural(t.item) && s == SyncSubComponents(t, next)
    requires t.item.value.Some? && t.item.value.value.Component?
    ensures Matches(t.item.value.value.fields, s)
  {
    hide SyncField;
    var fields := t.item.value.value.fields;
    forall k | k in fields && fields[k].SubMap? && k in s.kids ensures ItemsMatch(fields[k].items, s.kids[k]) {
      assert ItemsMatch(fields[k].items, t.kids[k]);
      assert s.kids[k].kids.Keys == t.kids[k].kids.Keys;
    }
  }

  /** A settled tree is a fixed point, so repeating the walk within a transaction changes nothing. */
  lemma {:induction false} SyncIsIdempotent(t: Tree, next: VT)
    requires Settled(t)
    ensures SyncSubComponents(t, next) == t
  {
    assert Has(t, []);
    var s := SyncSubComponents(t, next);
    forall k | k in t.kids ensures s.kids[k] == t.kids[k] {
      SettledKid(t, k);
      SyncIsIdempotent(t.kids[k], next);
    }
    assert s.kids == t.kids;
  }

  /** Nothing is reported for a settled tree. */
  lemma {:induction false} SettledReportsNothing(t: Tree, p: Path)
    requires Settled(t)
    ensures p !in Phantoms(t)
    ensures Has(t, p) ==> Where(t, p) == Visited
    decreases |p|
  {
    assert Has(t, []);
    if p == [] {
    } else if p[0] in t.kids {
      SettledKid(t, p[0]);
      SettledReportsNothing(t.kids[p[0]], p[1..]);
    }
  }
}
