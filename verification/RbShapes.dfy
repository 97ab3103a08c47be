/** The red-black tree of wepoll, as pictures: the trees that the links of the nodes spell out.

    A `Shape` is a tree; a `Path` is the way from a node up to the root, with the subtrees that
    hang off it, so a pair (shape, path) is a whole tree looked at from one node.  Order and
    balance are stated here, and the effect of each rebalancing step on them is proved; the
    module RbTree shows that the code performs these steps in place. */
module RbShapes {

  datatype Side = Left | Right

  function Other(d: Side): Side { if d.Left? then Right else Left }

  class Node {
    var key: nat
    var left: Node?
    var right: Node?
    var parent: Node?
    var red: bool

    constructor ()
      ensures left == null && right == null && parent == null && !red && key == 0
    {
      key, left, right, parent, red := 0, null, null, null, false;
    }

    function Kid(d: Side): Node?
      reads this
    {
      if d.Left? then left else right
    }
  }

  // ---------- shapes ----------

  datatype Shape = Leaf | Br(n: Node, key: nat, red: bool, l: Shape, r: Shape)

  datatype Item = Item(key: nat, node: Node)

  datatype Path = Top | In(d: Side, n: Node, key: nat, red: bool, sib: Shape, up: Path)

  ghost function Sub(s: Shape, d: Side): Shape
    requires s.Br?
  {
    if d.Left? then s.l else s.r
  }

  // A node whose child on side d is a and whose other child is b.
  ghost function Mk(d: Side, n: Node, key: nat, red: bool, a: Shape, b: Shape): Shape {
    if d.Left? then Br(n, key, red, a, b) else Br(n, key, red, b, a)
  }

  ghost function Root(s: Shape): Node? { if s.Leaf? then null else s.n }

  ghost function Holder(z: Path): Node? { if z.Top? then null else z.n }

  ghost function Nodes(s: Shape): set<Node> {
    if s.Leaf? then {} else {s.n} + Nodes(s.l) + Nodes(s.r)
  }

  ghost function PathNodes(z: Path): set<Node> {
    if z.Top? then {} else {z.n} + Nodes(z.sib) + PathNodes(z.up)
  }

  ghost predicate Distinct(s: Shape) {
    s.Br? ==> s.n !in Nodes(s.l) && s.n !in Nodes(s.r) && Nodes(s.l) !! Nodes(s.r) && Distinct(s.l) && Distinct(s.r)
  }

  ghost predicate PathDistinct(z: Path) {
    z.In? ==>
      z.n !in Nodes(z.sib) && z.n !in PathNodes(z.up) && Nodes(z.sib) !! PathNodes(z.up)
      && Distinct(z.sib) && PathDistinct(z.up)
  }

  ghost function Plug(s: Shape, z: Path): Shape
    decreases z
  {
    if z.Top? then s else Plug(Mk(z.d, z.n, z.key, z.red, s, z.sib), z.up)
  }

  ghost function Height(z: Path): nat { if z.Top? then 0 else 1 + Height(z.up) }

  // ---------- order ----------

  ghost function Inorder(s: Shape): seq<Item> {
    if s.Leaf? then [] else Inorder(s.l) + [Item(s.key, s.n)] + Inorder(s.r)
  }

  ghost function Before(z: Path): seq<Item> {
    match z
    case Top => []
    case In(d, n, key, _, sib, up) => if d.Left? then Before(up) else Before(up) + Inorder(sib) + [Item(key, n)]
  }

  ghost function After(z: Path): seq<Item> {
    match z
    case Top => []
    case In(d, n, key, _, sib, up) => if d.Left? then [Item(key, n)] + Inorder(sib) + After(up) else After(up)
  }

  ghost function Flat(s: Shape, z: Path): seq<Item> { Before(z) + Inorder(s) + After(z) }

  lemma FlatUp(s: Shape, z: Path)
    requires z.In?
    ensures Flat(Mk(z.d, z.n, z.key, z.red, s, z.sib), z.up) == Flat(s, z)
  {
    var up := z.up;
    if z.d.Left? {
      calc {
        Before(up) + (Inorder(s) + [Item(z.key, z.n)] + Inorder(z.sib)) + After(up);
        Before(up) + Inorder(s) + ([Item(z.key, z.n)] + Inorder(z.sib) + After(up));
      }
    } else {
      calc {
        Before(up) + (Inorder(z.sib) + [Item(z.key, z.n)] + Inorder(s)) + After(up);
        (Before(up) + Inorder(z.sib) + [Item(z.key, z.n)]) + Inorder(s) + After(up);
      }
    }
  }

  lemma {:induction false} FlatPlug(s: Shape, z: Path)
    ensures Inorder(Plug(s, z)) == Flat(s, z)
    decreases z
  {
    if z.In? {
      FlatUp(s, z);
      FlatPlug(Mk(z.d, z.n, z.key, z.red, s, z.sib), z.up);
    } else {
      assert [] + Inorder(s) + [] == Inorder(s);
    }
  }

  ghost predicate Sorted(q: seq<Item>) {
    forall i, j :: 0 <= i < j < |q| ==> q[i].key < q[j].key
  }

  ghost predicate HasKey(q: seq<Item>, key: nat) {
    exists e :: e in q && e.key == key
  }

  lemma SortedSides(a: seq<Item>, e: Item, b: seq<Item>)
    requires Sorted(a + [e] + b)
    ensures forall x :: x in a ==> x.key < e.key
    ensures forall x :: x in b ==> e.key < x.key
  {
    var q := a + [e] + b;
    forall x | x in a
      ensures x.key < e.key
    {
      var i :| 0 <= i < |a| && a[i] == x;
      assert q[i] == x && q[|a|] == e;
    }
    forall x | x in b
      ensures e.key < x.key
    {
      var i :| 0 <= i < |b| && b[i] == x;
      assert q[|a| + 1 + i] == x && q[|a|] == e;
    }
  }

  // In a sorted tree the focus divides the keys below it at its own key.
  lemma FlatSides(s: Shape, z: Path)
    requires s.Br? && Sorted(Flat(s, z))
    ensures forall e :: e in Before(z) + Inorder(s.l) ==> e.key < s.key
    ensures forall e :: e in Inorder(s.r) + After(z) ==> s.key < e.key
    ensures Item(s.key, s.n) in Flat(s, z)
    ensures Flat(s.l, In(Left, s.n, s.key, s.red, s.r, z)) == Flat(s, z)
    ensures Flat(s.r, In(Right, s.n, s.key, s.red, s.l, z)) == Flat(s, z)
  {
    var e := Item(s.key, s.n);
    FlatUp(s.l, In(Left, s.n, s.key, s.red, s.r, z));
    FlatUp(s.r, In(Right, s.n, s.key, s.red, s.l, z));
    var a, b := Before(z) + Inorder(s.l), Inorder(s.r) + After(z);
    Outward(Before(z), Inorder(s.l), [e], Inorder(s.r), After(z));
    assert e in [e];
    SortedSides(a, e, b);
  }

  lemma Outward(a: seq<Item>, b: seq<Item>, c: seq<Item>, d: seq<Item>, e: seq<Item>)
    ensures a + (b + c + d) + e == (a + b) + c + (d + e)
  {
  }

  // ---------- balance ----------

  ghost predicate IsRed(s: Shape) { s.Br? && s.red }

  ghost function BlackHeight(s: Shape): nat {
    if s.Leaf? then 0 else BlackHeight(s.l) + if s.red then 0 else 1
  }

  // No red node has a red child, and all ways down meet the same number of black nodes.
  ghost predicate Balanced(s: Shape) {
    s.Br? ==>
      && Balanced(s.l) && Balanced(s.r) && BlackHeight(s.l) == BlackHeight(s.r)
      && (s.red ==> !IsRed(s.l) && !IsRed(s.r))
  }

  ghost predicate HolderRed(z: Path) { z.In? && z.red }

  // The tree around the hole is balanced provided the hole has black height h.
  ghost predicate PathBalanced(z: Path, h: nat) {
    z.In? ==>
      && Balanced(z.sib) && BlackHeight(z.sib) == h
      && (z.red ==> !IsRed(z.sib) && z.up.In? && !z.up.red)
      && PathBalanced(z.up, h + if z.red then 0 else 1)
  }

  // The subtree and what is around it make up all the nodes, each once.
  ghost predicate Apart(s: Shape, z: Path, nodes: set<Node>) {
    Distinct(s) && PathDistinct(z) && Nodes(s) !! PathNodes(z) && Nodes(s) + PathNodes(z) == nodes
  }

  lemma HolderApart(s: Shape, z: Path, nodes: set<Node>)
    requires Apart(s, z, nodes)
    ensures Distinct(s) && PathDistinct(z) && Nodes(s) !! PathNodes(z) && Nodes(s) <= nodes && PathNodes(z) <= nodes
    ensures z.In? ==> z.n in PathNodes(z) && z.n in nodes && z.n !in Nodes(z.sib) && z.n !in PathNodes(z.up)
    ensures s.Br? ==> s.n in Nodes(s)
  {
  }

  lemma LeafApart(z: Path, nodes: set<Node>, node: Node, key: nat)
    requires Apart(Leaf, z, nodes) && node !in nodes
    ensures Apart(Br(node, key, true, Leaf, Leaf), z, nodes + {node})
  {
  }

  lemma OuterApart(s: Shape, z: Path, nodes: set<Node>, c: Shape)
    requires Apart(s, z, nodes) && s.Br? && ((s.l.Leaf? && c == s.r) || (s.r.Leaf? && c == s.l))
    ensures Apart(c, z, nodes - {s.n}) && Distinct(c) && Nodes(c) <= nodes && Nodes(c) !! PathNodes(z)
      && s.n !in Nodes(c)
    ensures c.Br? ==> c.n in Nodes(c)
  {
  }

  lemma SubstituteApart(s: Shape, z: Path, nodes: set<Node>, next: Node, key: nat)
    requires Apart(s, z, nodes) && s.Br? && s.l.Br? && s.r.Br? && next !in nodes
    ensures Apart(Br(next, key, s.red, s.l, s.r), z, nodes - {s.n} + {next})
    ensures s.l.n in Nodes(s) && s.r.n in Nodes(s) && next !in Nodes(s)
  {
    assert s.l.n in Nodes(s.l) && s.r.n in Nodes(s.r);
  }

  lemma GraftedApart(s: Shape, z: Path, nodes: set<Node>)
    requires Apart(s, z, nodes) && s.Br? && s.r.Br?
    ensures Apart(Grafted(s), z, nodes - {s.n}) && Nodes(Grafted(s)) == Nodes(s) - {s.n}
  {
    GraftedParts(s);
  }

  lemma {:induction false} PlugBalanced(s: Shape, z: Path)
    requires Balanced(s) && PathBalanced(z, BlackHeight(s)) && !(IsRed(s) && HolderRed(z))
    ensures Balanced(Plug(s, z)) && (z.In? ==> !IsRed(Plug(s, z)))
    decreases z
  {
    if z.In? {
      PlugBalanced(Mk(z.d, z.n, z.key, z.red, s, z.sib), z.up);
    }
  }

  // The whole tree, looked at from s, is balanced and has a black root.
  ghost predicate Sound(s: Shape, z: Path) {
    Balanced(s) && PathBalanced(z, BlackHeight(s)) && !(IsRed(s) && HolderRed(z)) && (z.Top? ==> !IsRed(s))
  }

  // The search for a key has come to s: everything outside s is on the proper side of it.
  ghost predicate Searching(s: Shape, z: Path, key: nat) {
    && Sorted(Flat(s, z)) && Sound(s, z)
    && (forall e :: e in Before(z) ==> e.key < key) && (forall e :: e in After(z) ==> key < e.key)
  }

  lemma SoundSides(s: Shape, z: Path)
    requires s.Br? && Sound(s, z)
    ensures Sound(s.l, In(Left, s.n, s.key, s.red, s.r, z)) && Sound(s.r, In(Right, s.n, s.key, s.red, s.l, z))
  {
  }

  // What lies on either side of the subtrees of s.
  lemma SidesWithin(s: Shape, z: Path)
    requires s.Br?
    ensures Before(In(Left, s.n, s.key, s.red, s.r, z)) == Before(z)
    ensures After(In(Right, s.n, s.key, s.red, s.l, z)) == After(z)
    ensures forall e :: e in After(In(Left, s.n, s.key, s.red, s.r, z)) ==>
      e.key == s.key || e in Inorder(s.r) + After(z)
    ensures forall e :: e in Before(In(Right, s.n, s.key, s.red, s.l, z)) ==>
      e.key == s.key || e in Before(z) + Inorder(s.l)
  {
  }

  lemma SearchLeft(s: Shape, z: Path, key: nat)
    requires s.Br? && Searching(s, z, key) && key < s.key
    ensures var z1 := In(Left, s.n, s.key, s.red, s.r, z); Searching(s.l, z1, key) && Flat(s.l, z1) == Flat(s, z)
  {
    SoundSides(s, z);
    FlatSides(s, z);
    SidesWithin(s, z);
    hide Sound, Sorted, Flat, Before, After, Inorder;
  }

  lemma SearchRight(s: Shape, z: Path, key: nat)
    requires s.Br? && Searching(s, z, key) && key > s.key
    ensures var z1 := In(Right, s.n, s.key, s.red, s.l, z); Searching(s.r, z1, key) && Flat(s.r, z1) == Flat(s, z)
  {
    SoundSides(s, z);
    FlatSides(s, z);
    SidesWithin(s, z);
    hide Sound, Sorted, Flat, Before, After, Inorder;
  }

  lemma InsertOne(a: seq<Item>, e: Item, b: seq<Item>)
    requires Sorted(a + b)
    requires (forall x :: x in a ==> x.key < e.key) && (forall x :: x in b ==> e.key < x.key)
    ensures Sorted(a + [e] + b)
    ensures multiset(a + [e] + b) == multiset(a + b) + multiset{e}
  {
    var p, q := a + b, a + [e] + b;
    forall i, j | 0 <= i < j < |q|
      ensures q[i].key < q[j].key
    {
      if i < |a| {
        assert q[i] == p[i] == a[i] && a[i] in a;
      } else if i > |a| {
        assert q[i] == p[i - 1];
      }
      if j < |a| {
        assert q[j] == p[j];
      } else if j > |a| {
        assert q[j] == p[j - 1] == b[j - |a| - 1] && b[j - |a| - 1] in b;
      }
    }
  }

  // A search that ends at a free link: a red node there fits and keeps the order.
  lemma InsertedFits(node: Node, key: nat, z: Path)
    requires Sound(Leaf, z)
    ensures Fits(Br(node, key, true, Leaf, Leaf), z)
  {
  }

  lemma InsertedFlat(node: Node, key: nat, z: Path)
    requires Searching(Leaf, z, key)
    ensures var q := Flat(Br(node, key, true, Leaf, Leaf), z);
      Sorted(q) && multiset(q) == multiset(Flat(Leaf, z)) + multiset{Item(key, node)}
  {
    var a, e, b := Before(z), Item(key, node), After(z);
    Single(node, key);
    assert a + [] + b == a + b;
    InsertOne(a, e, b);
  }

  lemma Single(node: Node, key: nat)
    ensures Inorder(Br(node, key, true, Leaf, Leaf)) == [Item(key, node)]
  {
  }

  // ---------- rotations ----------

  ghost function Rotated(s: Shape, cis: Side): Shape
    requires s.Br? && Sub(s, Other(cis)).Br?
  {
    var q := Sub(s, Other(cis));
    Mk(cis, q.n, q.key, q.red, RotatedLow(s, cis), Sub(q, Other(cis)))
  }

  // The node that moves down in a rotation, with its new children.
  ghost function RotatedLow(s: Shape, cis: Side): Shape
    requires s.Br? && Sub(s, Other(cis)).Br?
  {
    Mk(cis, s.n, s.key, s.red, Sub(s, cis), Sub(Sub(s, Other(cis)), cis))
  }

  lemma RotatedInorder(s: Shape, cis: Side)
    requires s.Br? && Sub(s, Other(cis)).Br?
    ensures Inorder(Rotated(s, cis)) == Inorder(s)
  {
    var q := Sub(s, Other(cis));
    if cis.Left? {
      Reassociate(Inorder(s.l), [Item(s.key, s.n)], Inorder(q.l), [Item(q.key, q.n)], Inorder(q.r));
    } else {
      Reassociate(Inorder(q.l), [Item(q.key, q.n)], Inorder(q.r), [Item(s.key, s.n)], Inorder(s.r));
    }
  }

  lemma Reassociate(a: seq<Item>, b: seq<Item>, c: seq<Item>, d: seq<Item>, e: seq<Item>)
    ensures a + b + (c + d + e) == (a + b + c) + d + e
  {
  }

  lemma RotatedNodes(s: Shape, cis: Side)
    requires s.Br? && Sub(s, Other(cis)).Br?
    ensures Nodes(Rotated(s, cis)) == Nodes(s)
    ensures Distinct(s) ==> Distinct(Rotated(s, cis))
  {
    var q, low := Sub(s, Other(cis)), RotatedLow(s, cis);
    assert Distinct(s) ==>
      Distinct(q) && Distinct(low) && Nodes(low) !! Nodes(Sub(q, Other(cis))) && q.n !in Nodes(low);
  }

  ghost function InnerShape(s: Shape, z: Path): Shape
    requires s.Br? && Clash(z) && z.d != z.up.d
  {
    RotatedLow(Mk(z.d, z.n, z.key, z.red, s, z.sib), z.up.d)
  }

  ghost function InnerPath(s: Shape, z: Path): Path
    requires s.Br? && Clash(z) && z.d != z.up.d
  {
    In(z.up.d, s.n, s.key, s.red, Sub(s, Other(z.up.d)), z.up)
  }

  ghost function OuterPath(z: Path): Path
    requires Clash(z) && z.d == z.up.d
  {
    var g := z.up;
    In(z.d, z.n, z.key, false, Mk(z.d, g.n, g.key, true, z.sib, g.sib), g.up)
  }

  lemma InnerFits(s: Shape, z: Path)
    requires Fits(s, z) && Clash(z) && z.d != z.up.d
    ensures Fits(InnerShape(s, z), InnerPath(s, z)) && Clash(InnerPath(s, z))
    ensures Flat(InnerShape(s, z), InnerPath(s, z)) == Flat(s, z)
  {
    var ps := Mk(z.d, z.n, z.key, z.red, s, z.sib);
    FlatUp(s, z);
    RotatedInorder(ps, z.up.d);
    FlatUp(InnerShape(s, z), InnerPath(s, z));
  }

  lemma OuterFits(s: Shape, z: Path)
    requires Fits(s, z) && Clash(z) && z.d == z.up.d && !IsRed(z.up.sib)
    ensures Fits(s, OuterPath(z)) && Flat(s, OuterPath(z)) == Flat(s, z)
  {
    var g := z.up;
    var ps1 := Mk(z.d, z.n, z.key, false, s, z.sib);
    var gs1 := Mk(g.d, g.n, g.key, true, ps1, g.sib);
    FlatUp(s, z);
    FlatUp(Mk(z.d, z.n, z.key, z.red, s, z.sib), g);
    assert Inorder(ps1) == Inorder(Mk(z.d, z.n, z.key, z.red, s, z.sib));
    assert Inorder(gs1) == Inorder(Mk(g.d, g.n, g.key, g.red, Mk(z.d, z.n, z.key, z.red, s, z.sib), g.sib));
    RotatedInorder(gs1, Other(g.d));
    FlatUp(s, OuterPath(z));
    assert PathBalanced(g, BlackHeight(s));
  }

  ghost function Recolored(s: Shape, z: Path): Shape
    requires z.In? && z.up.In? && z.up.sib.Br?
  {
    Mk(z.up.d, z.up.n, z.up.key, true, Mk(z.d, z.n, z.key, false, s, z.sib), z.up.sib.(red := false))
  }

  lemma RecoloredFits(s: Shape, z: Path)
    requires Fits(s, z) && Clash(z) && IsRed(z.up.sib)
    ensures Fits(Recolored(s, z), z.up.up) && Flat(Recolored(s, z), z.up.up) == Flat(s, z)
  {
    var ps, us := Mk(z.d, z.n, z.key, z.red, s, z.sib), z.up.sib;
    var ps1, us1 := ps.(red := false), us.(red := false);
    FlatUp(s, z);
    FlatUp(ps, z.up);
    assert PathBalanced(z.up, BlackHeight(s));
    assert Balanced(ps1) && BlackHeight(ps1) == BlackHeight(s) + 1 && Inorder(ps1) == Inorder(ps);
    assert Balanced(us1) && BlackHeight(us1) == BlackHeight(us) + 1 && Inorder(us1) == Inorder(us);
    assert Balanced(Recolored(s, z)) && BlackHeight(Recolored(s, z)) == BlackHeight(s) + 1;
  }

  // The insertion loop: the node looked at is red, and only it may clash with its parent.
  ghost predicate Fits(s: Shape, z: Path) {
    IsRed(s) && Balanced(s) && PathBalanced(z, BlackHeight(s))
  }

  ghost predicate Clash(z: Path) { z.In? && z.red && z.up.In? }

  // ---------- taking a node out ----------

  // The leftmost node of s, with its right subtree.
  ghost function Min(s: Shape): (m: Shape)
    requires s.Br?
    ensures m.Br? && m.l.Leaf?
  {
    if s.l.Leaf? then s else Min(s.l)
  }

  ghost function RemoveMin(s: Shape): Shape
    requires s.Br?
  {
    if s.l.Leaf? then s.r else Br(s.n, s.key, s.red, RemoveMin(s.l), s.r)
  }

  // The node whose left child is the leftmost one.
  ghost function MinHolder(s: Shape): Node
    requires s.Br? && s.l.Br?
  {
    if s.l.l.Leaf? then s.n else MinHolder(s.l)
  }

  // The way from the place of the leftmost node up to s and on along z.
  ghost function MinPath(s: Shape, z: Path): Path
    requires s.Br?
    decreases s
  {
    if s.l.Leaf? then z else MinPath(s.l, In(Left, s.n, s.key, s.red, s.r, z))
  }

  lemma {:induction false} MinParts(s: Shape)
    requires s.Br? && Distinct(s)
    ensures Min(s).n in Nodes(s)
    ensures Nodes(RemoveMin(s)) == Nodes(s) - {Min(s).n}
    ensures Distinct(RemoveMin(s)) && Distinct(Min(s)) && Nodes(Min(s)) <= Nodes(s)
    ensures s.l.Br? ==> MinHolder(s) in Nodes(s) - Nodes(Min(s))
    ensures Inorder(s) == [Item(Min(s).key, Min(s).n)] + Inorder(RemoveMin(s))
  {
    MinFirst(s);
    hide Inorder;
    if s.l.Br? {
      MinParts(s.l);
    }
  }

  lemma {:induction false} MinFirst(s: Shape)
    requires s.Br?
    ensures Inorder(s) == [Item(Min(s).key, Min(s).n)] + Inorder(RemoveMin(s))
  {
    if s.l.Leaf? {
      assert Inorder(s) == [] + [Item(s.key, s.n)] + Inorder(s.r);
    } else {
      MinFirst(s.l);
    }
  }

  lemma {:induction false} MinBalanced(s: Shape, z: Path)
    requires s.Br? && Sound(s, z)
    ensures Balanced(Min(s)) && PathBalanced(MinPath(s, z), BlackHeight(Min(s)))
    ensures Min(s).red ==> !IsRed(Min(s).r)
    ensures MinPath(s, z).In? || z.Top?
    decreases s
  {
    if s.l.Br? {
      MinBalanced(s.l, In(Left, s.n, s.key, s.red, s.r, z));
    }
  }

  lemma {:induction false} MinFlat(s: Shape, z: Path)
    requires s.Br?
    ensures Flat(Min(s).r, MinPath(s, z)) == Flat(RemoveMin(s), z)
    decreases s
  {
    if s.l.Br? {
      var z1 := In(Left, s.n, s.key, s.red, s.r, z);
      MinFlat(s.l, z1);
      FlatUp(RemoveMin(s.l), z1);
    }
  }

  lemma {:induction false} MinPathHolder(s: Shape, z: Path)
    requires s.Br?
    ensures Holder(MinPath(s, z)) == if s.l.Leaf? then Holder(z) else MinHolder(s)
    ensures z.In? ==> MinPath(s, z).In?
    ensures s.l.Br? ==> MinPath(s, z).In? && MinPath(s, z).d.Left?
    decreases s
  {
    if s.l.Br? {
      MinPathHolder(s.l, In(Left, s.n, s.key, s.red, s.r, z));
    }
  }

  // A node of colour `red` has been taken out; s is what has come to its place.
  ghost predicate Gap(s: Shape, z: Path, red: bool) {
    && Balanced(s) && PathBalanced(z, BlackHeight(s) + if red then 0 else 1)
    && (red ==> !IsRed(s) && z.In?)
  }

  // q without one item is p.
  ghost predicate Without(p: seq<Item>, q: seq<Item>, e: Item) {
    && (Sorted(q) ==> Sorted(p))
    && multiset(p) + multiset{e} == multiset(q)
  }

  lemma DropOne(a: seq<Item>, e: Item, b: seq<Item>)
    ensures Without(a + b, a + [e] + b, e)
  {
    var p, q := a + b, a + [e] + b;
    assert forall i :: 0 <= i < |p| ==> p[i] == q[if i < |a| then i else i + 1];
  }

  lemma DropIn(pre: seq<Item>, l: seq<Item>, e: Item, r: seq<Item>, post: seq<Item>)
    ensures Without(pre + (l + r) + post, pre + (l + [e] + r) + post, e)
  {
    DropOne(pre + l, e, r + post);
    assert pre + (l + r) + post == (pre + l) + (r + post);
    assert pre + (l + [e] + r) + post == (pre + l) + [e] + (r + post);
  }

  // The node at s has at most one child, c.
  lemma OuterGap(s: Shape, z: Path, c: Shape)
    requires s.Br? && Sound(s, z) && ((s.l.Leaf? && c == s.r) || (s.r.Leaf? && c == s.l))
    ensures Gap(c, z, s.red)
  {
  }

  lemma OuterDrop(s: Shape, z: Path, c: Shape)
    requires s.Br? && ((s.l.Leaf? && c == s.r) || (s.r.Leaf? && c == s.l))
    ensures Without(Flat(c, z), Flat(s, z), Item(s.key, s.n))
  {
    DropIn(Before(z), Inorder(s.l), Item(s.key, s.n), Inorder(s.r), After(z));
    assert Inorder(c) == Inorder(s.l) + Inorder(s.r);
  }

  // The path to the gap when the successor has moved up into the place of s.
  ghost function SuccessorPath(s: Shape, z: Path): Path
    requires s.Br? && s.r.Br?
  {
    MinPath(s.r, In(Right, Min(s.r).n, Min(s.r).key, s.red, s.l, z))
  }

  // The subtree at s once its successor has moved up.
  ghost function Grafted(s: Shape): Shape
    requires s.Br? && s.r.Br?
  {
    Br(Min(s.r).n, Min(s.r).key, s.red, s.l, RemoveMin(s.r))
  }

  lemma GraftedParts(s: Shape)
    requires s.Br? && s.r.Br? && Distinct(s)
    ensures Distinct(Grafted(s)) && Nodes(Grafted(s)) == Nodes(s) - {s.n}
  {
    MinParts(s.r);
  }

  lemma InnerGap(s: Shape, z: Path)
    requires s.Br? && s.l.Br? && s.r.Br? && Sound(s, z)
    ensures Gap(Min(s.r).r, SuccessorPath(s, z), Min(s.r).red)
  {
    var z1 := In(Right, Min(s.r).n, Min(s.r).key, s.red, s.l, z);
    MinBalanced(s.r, z1);
    MinPathHolder(s.r, z1);
  }

  lemma InnerDrop(s: Shape, z: Path)
    requires s.Br? && s.l.Br? && s.r.Br? && Distinct(s)
    ensures Without(Flat(Min(s.r).r, SuccessorPath(s, z)), Flat(s, z), Item(s.key, s.n))
  {
    var m := Min(s.r);
    var z1 := In(Right, m.n, m.key, s.red, s.l, z);
    MinFlat(s.r, z1);
    MinParts(s.r);
    DropIn(Before(z), Inorder(s.l), Item(s.key, s.n), Inorder(s.r), After(z));
    Regroup(Before(z), Inorder(s.l), [Item(m.key, m.n)], Inorder(RemoveMin(s.r)), After(z));
  }

  lemma Regroup(a: seq<Item>, b: seq<Item>, c: seq<Item>, d: seq<Item>, e: seq<Item>)
    ensures (a + b + c) + d + e == a + (b + (c + d)) + e
  {
  }

  // ---------- the removal loop ----------

  // The subtree looked at is one black node short of what its surroundings need.
  ghost predicate Short(s: Shape, z: Path) {
    z.In? && !IsRed(s) && Balanced(s) && PathBalanced(z, BlackHeight(s) + 1)
  }

  ghost function Black(s: Shape): Shape { if s.Br? then s.(red := false) else s }

  // A shortage below a red node ends when that is painted black.
  lemma BlackSound(s: Shape, z: Path)
    requires s.Br? && Balanced(Black(s)) && PathBalanced(z, BlackHeight(s) + 1)
    ensures if IsRed(s) then Sound(Black(s), z) else Balanced(s)
  {
  }

  lemma BlackTop(s: Shape)
    requires Balanced(s) && !IsRed(s)
    ensures Sound(Black(s), Top)
  {
  }

  ghost function Whole(s: Shape, z: Path): Shape
    requires z.In?
  {
    Mk(z.d, z.n, z.key, z.red, s, z.sib)
  }

  // A red sibling has been rotated above the parent.
  ghost function RedSiblingPath(z: Path): Path
    requires z.In? && z.sib.Br?
  {
    var w := z.sib;
    In(z.d, z.n, z.key, true, Sub(w, z.d), In(z.d, w.n, w.key, false, Sub(w, Other(z.d)), z.up))
  }

  lemma RedSiblingShort(s: Shape, z: Path)
    requires Short(s, z) && IsRed(z.sib)
    ensures Short(s, RedSiblingPath(z)) && !IsRed(RedSiblingPath(z).sib)
    ensures Flat(s, RedSiblingPath(z)) == Flat(s, z)
    ensures Height(RedSiblingPath(z)) == Height(z) + 1
  {
    var top := Mk(z.d, z.n, z.key, true, s, z.sib.(red := false));
    FlatUp(s, z);
    assert Inorder(top) == Inorder(Whole(s, z)) by {
      assert Inorder(z.sib.(red := false)) == Inorder(z.sib);
    }
    RotatedInorder(top, z.d);
    FlatUp(s, RedSiblingPath(z));
    FlatUp(Whole(s, RedSiblingPath(z)), RedSiblingPath(z).up);
  }

  // The red near child of the sibling has been rotated above it.
  ghost function NearTurned(w: Shape, cis: Side): Shape
    requires w.Br? && Sub(w, cis).Br?
  {
    Rotated(Mk(cis, w.n, w.key, true, Sub(w, cis).(red := false), Sub(w, Other(cis))), Other(cis))
  }

  lemma NearTurnedShort(s: Shape, z: Path)
    requires Short(s, z) && !IsRed(z.sib) && z.sib.Br?
    requires IsRed(Sub(z.sib, z.d)) && !IsRed(Sub(z.sib, Other(z.d)))
    ensures var z1 := z.(sib := NearTurned(z.sib, z.d));
      Short(s, z1) && !IsRed(z1.sib) && IsRed(Sub(z1.sib, Other(z.d))) && Flat(s, z1) == Flat(s, z)
  {
    var w := z.sib;
    var w1 := Mk(z.d, w.n, w.key, true, Sub(w, z.d).(red := false), Sub(w, Other(z.d)));
    assert Inorder(w1) == Inorder(w) by {
      assert Inorder(Sub(w, z.d).(red := false)) == Inorder(Sub(w, z.d));
    }
    RotatedInorder(w1, Other(z.d));
    var v := Sub(w, z.d);
    assert Balanced(v) && BlackHeight(v.l) == BlackHeight(v.r) == BlackHeight(s);
  }

  // The sibling takes the parent's place and colour; parent and far child become black.
  ghost function FarTurned(s: Shape, z: Path): Shape
    requires z.In? && z.sib.Br?
  {
    var w := z.sib;
    Mk(z.d, w.n, w.key, z.red, Mk(z.d, z.n, z.key, false, s, Sub(w, z.d)), Black(Sub(w, Other(z.d))))
  }

  lemma FarTurnedFlat(s: Shape, z: Path)
    requires z.In? && z.sib.Br?
    ensures Flat(FarTurned(s, z), z.up) == Flat(s, z)
  {
    var w := z.sib;
    var far := Sub(w, Other(z.d));
    var w1 := Mk(z.d, w.n, w.key, z.red, Sub(w, z.d), Black(far));
    var top := Mk(z.d, z.n, z.key, false, s, w1);
    FlatUp(s, z);
    assert Inorder(top) == Inorder(Whole(s, z)) by {
      assert Inorder(Black(far)) == Inorder(far);
      assert Inorder(w1) == Inorder(w);
    }
    RotatedInorder(top, z.d);
  }

  lemma FarTurnedBalanced(s: Shape, z: Path)
    requires Short(s, z) && !IsRed(z.sib) && z.sib.Br? && IsRed(Sub(z.sib, Other(z.d)))
    ensures var t := FarTurned(s, z);
      Balanced(t) && PathBalanced(z.up, BlackHeight(t)) && !(IsRed(t) && HolderRed(z.up)) && Flat(t, z.up) == Flat(s, z)
  {
    FarTurnedFlat(s, z);
    hide Flat;
    var far := Sub(z.sib, Other(z.d));
    assert Balanced(far) && BlackHeight(Black(far)) == BlackHeight(s) + 1 && Balanced(Black(far));
    assert Balanced(Mk(z.d, z.n, z.key, false, s, Sub(z.sib, z.d)));
  }

  // A black sibling without red children turns red; the shortage moves up.
  ghost function Lowered(s: Shape, z: Path): Shape
    requires z.In? && z.sib.Br?
  {
    Mk(z.d, z.n, z.key, z.red, s, z.sib.(red := true))
  }

  lemma LoweredShort(s: Shape, z: Path)
    requires Short(s, z) && z.sib.Br? && !IsRed(z.sib) && !IsRed(z.sib.l) && !IsRed(z.sib.r)
    ensures var t := Lowered(s, z);
      Balanced(Black(t)) && PathBalanced(z.up, BlackHeight(t) + 1) && Flat(t, z.up) == Flat(s, z)
    ensures !z.red ==> Balanced(Lowered(s, z))
  {
    FlatUp(s, z);
    var w1 := z.sib.(red := true);
    assert Inorder(w1) == Inorder(z.sib) && Balanced(w1) && BlackHeight(w1) == BlackHeight(s);
  }

  lemma FlatBlack(s: Shape, z: Path)
    ensures Flat(Black(s), z) == Flat(s, z)
  {
    assert Inorder(Black(s)) == Inorder(s);
  }

  // Looking at a sound tree from its root.
  lemma {:induction false} FromRoot(s: Shape, z: Path)
    requires Sound(s, z)
    ensures Sound(Plug(s, z), Top) && Flat(Plug(s, z), Top) == Inorder(Plug(s, z)) == Flat(s, z)
  {
    PlugBalanced(s, z);
    FlatPlug(s, z);
    FlatPlug(Plug(s, z), Top);
  }
}
