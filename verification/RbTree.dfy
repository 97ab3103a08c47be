/** The red-black tree of wepoll: nodes with parent links, rotated and recoloured in place. */
module RbTree {
  import opened RbShapes

  ghost predicate Cell(n: Node, key: nat, red: bool, left: Node?, right: Node?, parent: Node?)
    reads n
  {
    n.key == key && n.red == red && n.left == left && n.right == right && n.parent == parent
  }

  ghost predicate Rep(s: Shape, parent: Node?)
    reads Nodes(s)
  {
    s.Br? ==> Cell(s.n, s.key, s.red, Root(s.l), Root(s.r), parent) && Rep(s.l, s.n) && Rep(s.r, s.n)
  }

  ghost predicate RepPath(t: Tree, z: Path, c: Node?)
    reads t`root, PathNodes(z)
  {
    match z
    case Top => t.root == c
    case In(d, n, key, red, sib, up) =>
      && Cell(n, key, red, if d.Left? then c else Root(sib), if d.Left? then Root(sib) else c, Holder(up))
      && Rep(sib, n)
      && RepPath(t, up, n)
  }

  ghost predicate At(t: Tree, s: Shape, z: Path)
    reads t`root, t`nodes, Nodes(s), PathNodes(z)
  {
    Rep(s, Holder(z)) && RepPath(t, z, Root(s)) && Apart(s, z, t.nodes)
  }

  lemma Ascend(t: Tree, s: Shape, z: Path)
    requires At(t, s, z) && z.In?
    ensures At(t, Mk(z.d, z.n, z.key, z.red, s, z.sib), z.up)
  {
  }

  lemma Descend(t: Tree, s: Shape, z: Path, d: Side)
    requires At(t, s, z) && s.Br?
    ensures At(t, Sub(s, d), In(d, s.n, s.key, s.red, Sub(s, Other(d)), z))
  {
  }

  lemma {:induction false} RootOnPath(t: Tree, z: Path, c: Node?)
    requires RepPath(t, z, c)
    ensures if z.Top? then t.root == c else t.root != null && t.root in PathNodes(z)
    decreases z
  {
    if z.In? {
      RootOnPath(t, z.up, z.n);
    }
  }

  // Looking at the sibling subtree instead.
  ghost function SiblingPath(s: Shape, z: Path): Path
    requires z.In?
  {
    In(Other(z.d), z.n, z.key, z.red, s, z.up)
  }

  lemma Across(t: Tree, s: Shape, z: Path)
    requires At(t, s, z) && z.In?
    ensures At(t, z.sib, SiblingPath(s, z))
  {
    Ascend(t, s, z);
    Descend(t, Whole(s, z), z.up, Other(z.d));
  }

  lemma {:induction false} PlugAt(t: Tree, s: Shape, z: Path)
    requires At(t, s, z)
    ensures At(t, Plug(s, z), Top)
    ensures Nodes(Plug(s, z)) == Nodes(s) + PathNodes(z)
    decreases z
  {
    if z.In? {
      Ascend(t, s, z);
      PlugAt(t, Mk(z.d, z.n, z.key, z.red, s, z.sib), z.up);
    }
  }

  lemma AtRoot(t: Tree, s: Shape, z: Path)
    requires At(t, s, z) && Sound(s, z)
    ensures At(t, Plug(s, z), Top) && Sound(Plug(s, z), Top) && Black(Plug(s, z)) == Plug(s, z)
      && t.root == Root(Plug(s, z))
    ensures Flat(Plug(s, z), Top) == Inorder(Plug(s, z)) == Flat(s, z)
  {
    PlugAt(t, s, z);
    FromRoot(s, z);
  }

  lemma {:induction false} Locate(t: Tree, node: Node, s: Shape, z: Path) returns (s': Shape, z': Path)
    requires At(t, s, z) && node in Nodes(s) && Sound(s, z)
    ensures At(t, s', z') && s'.Br? && s'.n == node && Flat(s', z') == Flat(s, z) && Sound(s', z')
    decreases s
  {
    if s.n == node {
      return s, z;
    }
    var d := if node in Nodes(s.l) then Left else Right;
    var z1 := In(d, s.n, s.key, s.red, Sub(s, Other(d)), z);
    Descend(t, s, z, d);
    FlatUp(Sub(s, d), z1);
    s', z' := Locate(t, node, Sub(s, d), z1);
  }

  lemma {:induction false} MinAt(t: Tree, s: Shape, z: Path)
    requires s.Br? && At(t, RemoveMin(s), z)
    ensures At(t, Min(s).r, MinPath(s, z))
    decreases s
  {
    if s.l.Br? {
      Descend(t, RemoveMin(s), z, Left);
      MinAt(t, s.l, In(Left, s.n, s.key, s.red, s.r, z));
    }
  }

  lemma {:induction false} ToMin(t: Tree, s: Shape, z: Path)
    requires s.Br? && At(t, s, z)
    ensures At(t, Min(s), MinPath(s, z))
    decreases s
  {
    if s.l.Br? {
      Descend(t, s, z, Left);
      ToMin(t, s.l, In(Left, s.n, s.key, s.red, s.r, z));
    }
  }

  lemma {:induction false} FromMin(t: Tree, s: Shape, z: Path)
    requires s.Br? && At(t, Min(s).r, MinPath(s, z))
    ensures At(t, RemoveMin(s), z)
    decreases s
  {
    if s.l.Br? {
      var z1 := In(Left, s.n, s.key, s.red, s.r, z);
      FromMin(t, s.l, z1);
      Ascend(t, RemoveMin(s.l), z1);
    }
  }

  class Tree {
    var root: Node?
    ghost var nodes: set<Node>
    ghost var shape: Shape

    ghost predicate Valid()
      reads this, Nodes(shape)
    {
      At(this, shape, Top) && Balanced(shape) && !IsRed(shape) && Sorted(Inorder(shape))
    }

    // The nodes with their keys, in increasing order of key.
    ghost function Items(): seq<Item>
      reads this
    {
      Inorder(shape)
    }

    constructor ()
      ensures Valid() && Items() == [] && nodes == {}
    {
      root, nodes, shape := null, {}, Leaf;
    }

    // The link that leads to c, from its holder or from the root, now leads to q.
    method ReplaceChild(parent: Node?, c: Node, q: Node?, ghost z: Path)
      requires RepPath(this, z, c) && PathDistinct(z) && c !in PathNodes(z) && parent == Holder(z)
      modifies `root, if z.In? then {z.n} else {}
      ensures RepPath(this, z, q)
    {
      assert z.In? ==> Rep(z.sib, z.n) && RepPath(this, z.up, z.n) && Root(z.sib) != c;
      if parent != null {
        if parent.left == c {
          parent.left := q;
        } else {
          parent.right := q;
        }
      } else {
        root := q;
      }
    }

    // The writes of a rotation below the place where it happens, one macro instance each.
    method RelinkLeft(node: Node, q: Node, parent: Node?, ghost s: Shape)
      requires s.Br? && s.n == node && s.r.Br? && s.r.n == q && Rep(s, parent) && Distinct(s)
      modifies Nodes(s)
      ensures Rep(Rotated(s, Left), parent)
    {
      ghost var sq, low := s.r, RotatedLow(s, Left);
      ghost var si := sq.l;
      assert Rep(sq, node) && Rep(si, q) && Distinct(sq) && Distinct(si);
      assert si.Br? ==> si.n in Nodes(sq) && Nodes(si.l) <= Nodes(sq) && Nodes(si.r) <= Nodes(sq);
      q.parent := parent;
      node.parent := q;
      node.right := q.left;
      if node.right != null {
        node.right.parent := node;
      }
      q.left := node;
      assert Rep(si, node) && Rep(s.l, node) && Rep(sq.r, q);
      assert Rep(low, q);
    }

    method RelinkRight(node: Node, q: Node, parent: Node?, ghost s: Shape)
      requires s.Br? && s.n == node && s.l.Br? && s.l.n == q && Rep(s, parent) && Distinct(s)
      modifies Nodes(s)
      ensures Rep(Rotated(s, Right), parent)
    {
      ghost var sq, low := s.l, RotatedLow(s, Right);
      ghost var si := sq.r;
      assert Rep(sq, node) && Rep(si, q) && Distinct(sq) && Distinct(si);
      assert si.Br? ==> si.n in Nodes(sq) && Nodes(si.l) <= Nodes(sq) && Nodes(si.r) <= Nodes(sq);
      q.parent := parent;
      node.parent := q;
      node.left := q.right;
      if node.left != null {
        node.left.parent := node;
      }
      q.right := node;
      assert Rep(si, node) && Rep(s.r, node) && Rep(sq.l, q);
      assert Rep(low, q);
    }

    // Rotates `node` towards side `cis`; its child on the other side takes its place.
    method Rotate(node: Node, cis: Side, ghost s: Shape, ghost z: Path)
      requires At(this, s, z) && s.Br? && s.n == node && Sub(s, Other(cis)).Br?
      modifies `root, Nodes(s), PathNodes(z)
      ensures nodes == old(nodes) && At(this, Rotated(s, cis), z)
    {
      var q, parent := node.Kid(Other(cis)), node.parent;
      assert z.In? ==> z.n in PathNodes(z);
      assert node in Nodes(s);
      ReplaceChild(parent, node, q, z);
      if cis.Left? {
        RelinkLeft(node, q, parent, s);
      } else {
        RelinkRight(node, q, parent, s);
      }
      RotatedNodes(s, cis);
    }

    method Paint(node: Node, red: bool, ghost s: Shape, ghost z: Path)
      requires At(this, s, z) && s.Br? && s.n == node
      modifies node
      ensures At(this, s.(red := red), z)
    {
      node.red := red;
      assert Rep(s.l, node) && Rep(s.r, node);
    }

    // Parent and uncle turn black, the grandparent red.
    method Recolor(parent: Node, uncle: Node, grandparent: Node, ghost s: Shape, ghost z: Path)
      requires At(this, s, z) && z.In? && z.up.In? && parent == z.n && grandparent == z.up.n
      requires z.up.sib.Br? && z.up.sib.n == uncle
      modifies nodes
      ensures nodes == old(nodes) && At(this, Recolored(s, z), z.up.up)
    {
      ghost var g := z.up;
      ghost var ps1, us1 := Mk(z.d, z.n, z.key, false, s, z.sib), z.up.sib.(red := false);
      Ascend(this, s, z);
      Paint(parent, false, Mk(z.d, z.n, z.key, z.red, s, z.sib), g);
      Across(this, ps1, g);
      Paint(uncle, false, g.sib, SiblingPath(ps1, g));
      Ascend(this, us1, SiblingPath(ps1, g));
      Paint(grandparent, true, Mk(g.d, g.n, g.key, g.red, ps1, us1), g.up);
    }

    // The node between its parent and grandparent is rotated above its parent.
    method TurnInner(parent: Node, cis: Side, ghost s: Shape, ghost z: Path) returns (node: Node)
      requires At(this, s, z) && s.Br? && Clash(z) && z.d != z.up.d == cis && parent == z.n
      modifies `root, nodes
      ensures nodes == old(nodes) && node == parent && At(this, InnerShape(s, z), InnerPath(s, z))
    {
      Ascend(this, s, z);
      Rotate(parent, cis, Mk(z.d, z.n, z.key, z.red, s, z.sib), z.up);
      Descend(this, Rotated(Mk(z.d, z.n, z.key, z.red, s, z.sib), z.up.d), z.up, z.up.d);
      node := parent;
    }

    // The parent turns black, the grandparent red, and the grandparent is rotated away.
    method TurnOuter(parent: Node, grandparent: Node, cis: Side, ghost s: Shape, ghost z: Path)
      requires At(this, s, z) && Clash(z) && z.d == z.up.d == cis && parent == z.n && grandparent == z.up.n
      modifies `root, nodes
      ensures nodes == old(nodes) && At(this, s, OuterPath(z))
    {
      ghost var g := z.up;
      ghost var ps1 := Mk(z.d, z.n, z.key, false, s, z.sib);
      Ascend(this, s, z);
      Paint(parent, false, Mk(z.d, z.n, z.key, z.red, s, z.sib), g);
      Ascend(this, ps1, g);
      Paint(grandparent, true, Mk(g.d, g.n, g.key, g.red, ps1, g.sib), g.up);
      ghost var gs1 := Mk(g.d, g.n, g.key, true, ps1, g.sib);
      Rotate(grandparent, Other(cis), gs1, g.up);
      Descend(this, Rotated(gs1, Other(g.d)), g.up, g.d);
    }

    // Walks down from the root to the free link where `key` belongs, or to its node.
    method FindSlot(key: nat) returns (parent: Node?, side: Side, taken: bool, ghost s: Shape, ghost z: Path)
      requires Valid()
      ensures taken == HasKey(Items(), key)
      ensures !taken ==> z.In? == (parent != null) && (z.In? ==> z.n == parent && z.d == side)
      ensures !taken ==> At(this, Leaf, z) && Flat(Leaf, z) == Items() && Searching(Leaf, z, key)
    {
      hide Balanced, Sorted, PathDistinct, Distinct, PathNodes;
      s, z := shape, Top;
      parent, side, taken := root, Left, false;
      if parent != null {
        while true
          invariant At(this, s, z) && s.Br? && s.n == parent
          invariant Flat(s, z) == Inorder(shape) && Searching(s, z, key)
          decreases s
        {
          FlatSides(s, z);
          if key < parent.key {
            SearchLeft(s, z, key);
            Descend(this, s, z, Left);
            z, s := In(Left, s.n, s.key, s.red, s.r, z), s.l;
            if parent.left != null {
              parent := parent.left;
            } else {
              side := Left;
              return;
            }
          } else if key > parent.key {
            SearchRight(s, z, key);
            Descend(this, s, z, Right);
            z, s := In(Right, s.n, s.key, s.red, s.l, z), s.r;
            if parent.right != null {
              parent := parent.right;
            } else {
              side := Right;
              return;
            }
          } else {
            taken := true;
            return;
          }
        }
      }
    }

    // Hangs `node`, coloured red, on the free link.
    method Attach(node: Node, key: nat, parent: Node?, side: Side, ghost z: Path)
      requires At(this, Leaf, z) && node !in nodes
      requires z.In? == (parent != null) && (z.In? ==> z.n == parent && z.d == side)
      modifies `root, `nodes, node, nodes
      ensures nodes == old(nodes) + {node} && At(this, Br(node, key, true, Leaf, Leaf), z)
    {
      hide Sorted;
      LeafApart(z, nodes, node, key);
      HolderApart(Leaf, z, nodes);
      hide Apart, Distinct, PathDistinct;
      if parent != null {
        assert Rep(z.sib, z.n) && RepPath(this, z.up, z.n);
        if side.Left? {
          parent.left := node;
        } else {
          parent.right := node;
        }
      } else {
        root := node;
      }
      node.key := key;
      node.left, node.right := null, null;
      node.parent := parent;
      node.red := true;
      nodes := nodes + {node};
      assert Rep(Br(node, key, true, Leaf, Leaf), parent);
    }

    // One turn of the rebalancing loop, for the side `cis` on which the parent hangs.
    method RebalanceAfterInsert(node: Node, parent: Node, cis: Side, ghost s: Shape, ghost z: Path)
      returns (node': Node, ghost s': Shape, ghost z': Path)
      requires At(this, s, z) && Fits(s, z) && Clash(z) && s.n == node && z.n == parent && z.up.d == cis
      modifies `root, nodes
      ensures nodes == old(nodes) && At(this, s', z') && Fits(s', z') && s'.n == node'
      ensures Flat(s', z') == Flat(s, z) && Height(z') < Height(z)
    {
      Ascend(this, s, z);
      var grandparent := parent.parent;
      var uncle := grandparent.Kid(Other(cis));
      if uncle != null && uncle.red {
        RecoloredFits(s, z);
        Recolor(parent, uncle, grandparent, s, z);
        node', s', z' := grandparent, Recolored(s, z), z.up.up;
      } else {
        node', s', z' := node, s, z;
        var parent' := parent;
        if node == parent.Kid(Other(cis)) {
          InnerFits(s, z);
          node' := TurnInner(parent, cis, s, z);
          s', z' := InnerShape(s, z), InnerPath(s, z);
          parent' := node'.parent;
        }
        OuterFits(s', z');
        TurnOuter(parent', grandparent, cis, s', z');
        z' := OuterPath(z');
      }
    }

    // The rebalancing loop of an insertion.
    method FixAfterInsert(node: Node, parent: Node?, ghost s: Shape, ghost z: Path)
      returns (ghost s': Shape, ghost z': Path)
      requires At(this, s, z) && Fits(s, z) && s.n == node && parent == Holder(z)
      modifies `root, nodes
      ensures nodes == old(nodes) && At(this, s', z') && Fits(s', z') && !HolderRed(z') && Flat(s', z') == Flat(s, z)
    {
      var n, p := node, parent;
      s', z' := s, z;
      while p != null && p.red
        invariant nodes == old(nodes) && At(this, s', z') && Fits(s', z') && s'.n == n && p == Holder(z')
        invariant Flat(s', z') == Flat(s, z)
        decreases Height(z')
      {
        assert Clash(z') && RepPath(this, z'.up, p);
        if p == p.parent.left {
          n, s', z' := RebalanceAfterInsert(n, p, Left, s', z');
        } else {
          n, s', z' := RebalanceAfterInsert(n, p, Right, s', z');
        }
        p := n.parent;
      }
    }

    // The root turns black, which ends an insertion.
    method BlackenRoot(ghost s: Shape, ghost z: Path)
      requires At(this, s, z) && Fits(s, z) && !HolderRed(z) && Sorted(Flat(s, z))
      modifies `shape, nodes
      ensures nodes == old(nodes) && Valid() && Items() == Flat(s, z)
    {
      PlugAt(this, s, z);
      PlugBalanced(s, z);
      FlatPlug(s, z);
      ghost var top := Plug(s, z);
      assert top.Br?;
      Paint(root, false, top, Top);
      shape := top.(red := false);
      assert Inorder(shape) == Inorder(top);
    }

    // Returns -1 and changes nothing when the key is taken, else inserts the node and returns 0.
    method Add(node: Node, key: nat) returns (r: int)
      requires Valid() && node !in nodes
      modifies `root, `nodes, `shape, node, nodes
      ensures Valid()
      ensures r == if HasKey(old(Items()), key) then -1 else 0
      ensures r == -1 ==> shape == old(shape) && nodes == old(nodes)
      ensures r == 0 ==> nodes == old(nodes) + {node}
      ensures r == 0 ==> multiset(Items()) == multiset(old(Items())) + multiset{Item(key, node)}
    {
      var parent, side, taken, s, z := FindSlot(key);
      if taken {
        return -1;
      }
      Attach(node, key, parent, side, z);
      InsertedFits(node, key, z);
      InsertedFlat(node, key, z);
      s, z := FixAfterInsert(node, parent, Br(node, key, true, Leaf, Leaf), z);
      BlackenRoot(s, z);
      r := 0;
    }

    method Find(key: nat) returns (node: Node?)
      requires Valid()
      ensures if HasKey(Items(), key) then node != null && Item(key, node) in Items() else node == null
    {
      node := root;
      ghost var s, z := shape, Top;
      while node != null
        invariant At(this, s, z) && Root(s) == node && Flat(s, z) == Items() && Searching(s, z, key)
        decreases s
      {
        FlatSides(s, z);
        if key < node.key {
          SearchLeft(s, z, key);
          Descend(this, s, z, Left);
          s, z := s.l, In(Left, s.n, s.key, s.red, s.r, z);
          node := node.left;
        } else if key > node.key {
          SearchRight(s, z, key);
          Descend(this, s, z, Right);
          s, z := s.r, In(Right, s.n, s.key, s.red, s.l, z);
          node := node.right;
        } else {
          return;
        }
      }
    }

    // The leftmost node below `right`.
    method Leftmost(right: Node, ghost r: Shape, ghost up: Node?) returns (next: Node)
      requires Rep(r, up) && Root(r) == right
      ensures next == Min(r).n
    {
      next := right;
      ghost var s, p := r, up;
      while next.left != null
        invariant s.Br? && Rep(s, p) && s.n == next && Min(s) == Min(r)
        decreases s
      {
        next := next.left;
        s, p := s.l, s.n;
      }
    }

    method SetParent(n: Node, parent: Node?, ghost c: Shape, ghost was: Node?)
      requires c.Br? && c.n == n && Rep(c, was) && Distinct(c)
      modifies n`parent
      ensures Rep(c, parent)
    {
      assert Rep(c.l, n) && Rep(c.r, n);
      n.parent := parent;
    }

    // Takes out a node with at most one child: the child takes its place.
    method TakeOuter(node: Node, next: Node?, parent: Node?, ghost s: Shape, ghost z: Path, ghost c: Shape)
      requires At(this, s, z) && s.Br? && s.n == node && parent == Holder(z) && next == Root(c)
      requires (s.l.Leaf? && c == s.r) || (s.r.Leaf? && c == s.l)
      modifies `root, `nodes, nodes
      ensures nodes == old(nodes) - {node} && At(this, c, z)
    {
      OuterApart(s, z, nodes, c);
      HolderApart(s, z, nodes);
      hide Apart, Distinct, PathDistinct;
      assert Rep(c, node);
      ReplaceChild(parent, node, next, z);
      if next != null {
        SetParent(next, parent, c, node);
      }
      nodes := nodes - {node};
    }

    // The successor takes over the colour and the left subtree of the node.
    method TakeLeft(node: Node, next: Node, left: Node, ghost l: Shape)
      requires l.Br? && l.n == left && Rep(l, node) && Distinct(l) && next !in Nodes(l)
      modifies next`red, next`left, left`parent
      ensures Rep(l, next) && next.red == old(node.red) && next.left == left
    {
      next.red := node.red;
      next.left := left;
      SetParent(left, next, l, node);
    }

    // The successor is the right child: it moves up with its right subtree.
    method GraftRight(node: Node, next: Node, left: Node, parent: Node?, ghost s: Shape, ghost fp: set<Node>)
      returns (red: bool)
      requires s.Br? && s.l.Br? && s.r.Br? && s.r.l.Leaf? && Rep(s, parent) && Distinct(s) && Nodes(s) <= fp
      requires s.n == node && s.r.n == next && s.l.n == left
      modifies Nodes(s)
      ensures Rep(Br(next, s.r.key, s.red, s.l, s.r.r), parent) && red == s.r.red
    {
      assert Rep(s.l, node) && Rep(s.r, node) && Rep(s.r.r, next) && Rep(s.l.l, left) && Rep(s.l.r, left);
      assert Distinct(s.l) && Distinct(s.r) && Nodes(s.r.r) <= Nodes(s.r);
      red := next.red;
      TakeLeft(node, next, left, s.l);
      next.parent := parent;
    }

    // The successor is the right child.
    method TakeNear(node: Node, next: Node, left: Node, parent: Node?, ghost s: Shape, ghost z: Path)
      returns (red: bool)
      requires At(this, s, z) && s.Br? && s.l.Br? && s.r.Br? && s.r.l.Leaf? && parent == Holder(z)
      requires s.n == node && s.r.n == next && s.l.n == left
      modifies `root, `nodes, nodes
      ensures nodes == old(nodes) - {node} && At(this, Grafted(s), z) && red == s.r.red
    {
      GraftedApart(s, z, nodes);
      HolderApart(s, z, nodes);
      hide Apart, Distinct, PathDistinct;
      ReplaceChild(parent, node, next, z);
      red := GraftRight(node, next, left, parent, s, nodes);
      nodes := nodes - {node};
    }

    // A leftmost node is unhooked: its right subtree takes its place.
    method Unhook(next: Node, p: Node, ghost s: Shape, ghost z: Path) returns (n: Node?)
      requires At(this, s, z) && s.Br? && s.l.Leaf? && s.n == next && z.In? && z.d.Left? && z.n == p
      modifies `nodes, nodes
      ensures nodes == old(nodes) - {next} && At(this, s.r, z) && n == Root(s.r)
      ensures next.key == s.key && next.red == s.red
    {
      hide Nodes;
      OuterApart(s, z, nodes, s.r);
      HolderApart(s, z, nodes);
      hide Apart, Distinct, PathDistinct;
      assert Rep(s.r, next) && Rep(z.sib, z.n) && RepPath(this, z.up, z.n);
      n := next.right;
      p.left := n;
      assert RepPath(this, z, n);
      if n != null {
        SetParent(n, p, s.r, next);
      }
      nodes := nodes - {next};
    }

    // A node outside a subtree takes the place, the colour and the children of its top.
    method Copy(node: Node, next: Node, left: Node, right: Node, parent: Node?, ghost s: Shape, ghost fp: set<Node>)
      requires s.Br? && s.l.Br? && s.r.Br? && Rep(s, parent) && Distinct(s) && next !in Nodes(s) && Nodes(s) <= fp
      requires s.n == node && s.l.n == left && s.r.n == right
      modifies next, left, right
      ensures Rep(Br(next, old(next.key), s.red, s.l, s.r), parent)
    {
      assert Rep(s.l, node) && Rep(s.r, node) && Distinct(s.l) && Distinct(s.r) && left in Nodes(s.l)
        && right in Nodes(s.r);
      TakeLeft(node, next, left, s.l);
      next.parent := parent;
      next.right := right;
      SetParent(right, next, s.r, node);
    }

    method Substitute(node: Node, next: Node, left: Node, right: Node, parent: Node?, ghost s: Shape, ghost z: Path)
      requires At(this, s, z) && s.Br? && s.l.Br? && s.r.Br? && parent == Holder(z) && next !in nodes
      requires s.n == node && s.l.n == left && s.r.n == right
      modifies `root, `nodes, nodes, next
      ensures nodes == old(nodes) - {node} + {next} && At(this, Br(next, old(next.key), s.red, s.l, s.r), z)
    {
      SubstituteApart(s, z, nodes, next, next.key);
      HolderApart(s, z, nodes);
      hide Apart, Distinct, PathDistinct;
      ReplaceChild(parent, node, next, z);
      Copy(node, next, left, right, parent, s, nodes);
      nodes := nodes - {node} + {next};
    }

    // Unhooks the successor, deep in the right subtree.
    method UnhookDeep(next: Node, ghost s: Shape, ghost z: Path) returns (n: Node?, p: Node, red: bool)
      requires At(this, s, z) && s.Br? && s.r.Br? && s.r.l.Br? && Min(s.r).n == next
      modifies `nodes, nodes
      ensures nodes == old(nodes) - {next} && At(this, Br(s.n, s.key, s.red, s.l, RemoveMin(s.r)), z)
      ensures n == Root(Min(s.r).r) && p == MinHolder(s.r) && red == next.red == Min(s.r).red
        && next.key == Min(s.r).key
    {
      ghost var z1 := In(Right, s.n, s.key, s.red, s.l, z);
      Descend(this, s, z, Right);
      ToMin(this, s.r, z1);
      MinPathHolder(s.r, z1);
      p := next.parent;
      red := next.red;
      n := Unhook(next, p, Min(s.r), MinPath(s.r, z1));
      FromMin(this, s.r, z1);
      Ascend(this, RemoveMin(s.r), z1);
    }

    // The successor is deeper: its right subtree takes its place, it takes the place of the node.
    method TakeDeep(node: Node, next: Node, left: Node, right: Node, parent: Node?, ghost s: Shape, ghost z: Path)
      returns (n: Node?, p: Node, red: bool)
      requires At(this, s, z) && s.Br? && s.l.Br? && s.r.Br? && s.r.l.Br? && parent == Holder(z)
      requires s.n == node && Min(s.r).n == next && s.l.n == left && s.r.n == right
      modifies `root, `nodes, nodes
      ensures nodes == old(nodes) - {node} && At(this, Grafted(s), z)
      ensures n == Root(Min(s.r).r) && p == MinHolder(s.r) && red == Min(s.r).red
    {
      hide PathNodes, Inorder, Min;
      MinParts(s.r);
      HolderApart(s, z, nodes);
      hide Apart, Rep, RepPath, Distinct, PathDistinct;
      n, p, red := UnhookDeep(next, s, z);
      Substitute(node, next, left, right, parent, Br(s.n, s.key, s.red, s.l, RemoveMin(s.r)), z);
    }

    // Takes out a node with two children: its successor takes its place.
    method TakeInner(node: Node, next: Node, left: Node, right: Node, parent: Node?, ghost s: Shape, ghost z: Path)
      returns (n: Node?, p: Node, red: bool)
      requires At(this, s, z) && s.Br? && s.l.Br? && s.r.Br? && parent == Holder(z)
      requires s.n == node && Min(s.r).n == next && s.l.n == left && s.r.n == right
      modifies `root, `nodes, nodes
      ensures nodes == old(nodes) - {node} && At(this, Min(s.r).r, SuccessorPath(s, z))
      ensures n == Root(Min(s.r).r) && p == Holder(SuccessorPath(s, z)) && red == Min(s.r).red
    {
      ghost var z1 := In(Right, next, Min(s.r).key, s.red, s.l, z);
      MinParts(s.r);
      MinPathHolder(s.r, z1);
      if next != right {
        n, p, red := TakeDeep(node, next, left, right, parent, s, z);
      } else {
        red := TakeNear(node, next, left, parent, s, z);
        p, n := next, next.right;
      }
      Descend(this, Grafted(s), z, Right);
      MinAt(this, s.r, z1);
    }

    // The first half of a removal: the node is out, and n hangs where a node of colour `red` is gone.
    method TakeOut(node: Node, ghost s: Shape, ghost z: Path)
      returns (n: Node?, parent: Node?, red: bool, ghost c: Shape, ghost z': Path)
      requires At(this, s, z) && Sound(s, z) && s.Br? && s.n == node
      modifies `root, `nodes, nodes
      ensures nodes == old(nodes) - {node} && At(this, c, z') && n == Root(c) && parent == Holder(z')
      ensures Gap(c, z', red) && Without(Flat(c, z'), Flat(s, z), Item(s.key, node))
    {
      hide Holder;
      assert Rep(s.l, node) && Rep(s.r, node);
      parent := node.parent;
      var left, right := node.left, node.right;
      if left == null || right == null {
        n := if left == null then right else left;
        c, z' := if left == null then s.r else s.l, z;
        OuterGap(s, z, c);
        OuterDrop(s, z, c);
        red := node.red;
        TakeOuter(node, n, parent, s, z, c);
      } else {
        var next := Leftmost(right, s.r, node);
        InnerGap(s, z);
        InnerDrop(s, z);
        n, parent, red := TakeInner(node, next, left, right, parent, s, z);
        c, z' := Min(s.r).r, SuccessorPath(s, z);
      }
    }

    // A red sibling is rotated above the parent; returns the new, black sibling.
    method TurnRedSibling(parent: Node, sibling: Node, cis: Side, ghost s: Shape, ghost z: Path)
      returns (sibling': Node?)
      requires At(this, s, z) && z.In? && z.d == cis && z.n == parent && z.sib.Br? && z.sib.n == sibling
      modifies `root, nodes
      ensures nodes == old(nodes) && At(this, s, RedSiblingPath(z)) && sibling' == Root(RedSiblingPath(z).sib)
    {
      ghost var w1 := z.sib.(red := false);
      Across(this, s, z);
      Paint(sibling, false, z.sib, SiblingPath(s, z));
      Ascend(this, w1, SiblingPath(s, z));
      Paint(parent, true, Mk(z.d, z.n, z.key, z.red, s, w1), z.up);
      ghost var top := Mk(z.d, z.n, z.key, true, s, w1);
      Rotate(parent, cis, top, z.up);
      Descend(this, Rotated(top, z.d), z.up, z.d);
      Descend(this, RotatedLow(top, z.d), RedSiblingPath(z).up, z.d);
      assert RepPath(this, RedSiblingPath(z), Root(s));
      sibling' := parent.Kid(Other(cis));
    }

    // The red near child of the sibling is rotated above it.
    method TurnNear(parent: Node, sibling: Node, near: Node, cis: Side, ghost s: Shape, ghost z: Path)
      returns (sibling': Node?)
      requires At(this, s, z) && z.In? && z.d == cis && z.n == parent && z.sib.Br? && z.sib.n == sibling
      requires Sub(z.sib, z.d).Br? && Sub(z.sib, z.d).n == near
      modifies `root, nodes
      ensures nodes == old(nodes) && At(this, s, z.(sib := NearTurned(z.sib, z.d)))
      ensures sibling' == Root(NearTurned(z.sib, z.d))
    {
      ghost var w, wz := z.sib, SiblingPath(s, z);
      Across(this, s, z);
      Descend(this, w, wz, z.d);
      ghost var v1 := Sub(w, z.d).(red := false);
      ghost var vz := In(z.d, w.n, w.key, w.red, Sub(w, Other(z.d)), wz);
      Paint(near, false, Sub(w, z.d), vz);
      Ascend(this, v1, vz);
      ghost var w1 := Mk(z.d, w.n, w.key, w.red, v1, Sub(w, Other(z.d)));
      Paint(sibling, true, w1, wz);
      Rotate(sibling, Other(cis), w1.(red := true), wz);
      Across(this, NearTurned(w, z.d), wz);
      assert RepPath(this, z.(sib := NearTurned(w, z.d)), Root(s));
      sibling' := parent.Kid(Other(cis));
    }

    // The sibling takes the parent's place and colour; parent and far child turn black.
    method TurnFar(parent: Node, sibling: Node, far: Node, cis: Side, ghost s: Shape, ghost z: Path)
      requires At(this, s, z) && z.In? && z.d == cis && z.n == parent && z.sib.Br? && z.sib.n == sibling
      requires Sub(z.sib, Other(z.d)).Br? && Sub(z.sib, Other(z.d)).n == far
      modifies `root, nodes
      ensures nodes == old(nodes) && At(this, FarTurned(s, z), z.up)
    {
      ghost var w, wz := z.sib, SiblingPath(s, z);
      assert RepPath(this, z, Root(s));
      Across(this, s, z);
      Paint(sibling, parent.red, w, wz);
      ghost var w1 := w.(red := z.red);
      Descend(this, w1, wz, Other(z.d));
      ghost var fz := In(Other(z.d), w.n, w.key, z.red, Sub(w, z.d), wz);
      Paint(far, false, Sub(w, Other(z.d)), fz);
      ghost var w2 := Mk(z.d, w.n, w.key, z.red, Sub(w, z.d), Black(Sub(w, Other(z.d))));
      Ascend(this, Black(Sub(w, Other(z.d))), fz);
      Ascend(this, w2, wz);
      Paint(parent, false, Mk(z.d, z.n, z.key, z.red, s, w2), z.up);
      Rotate(parent, cis, Mk(z.d, z.n, z.key, false, s, w2), z.up);
    }

    // The sibling turns red.
    method LowerSibling(sibling: Node, ghost s: Shape, ghost z: Path)
      requires At(this, s, z) && z.In? && z.sib.Br? && z.sib.n == sibling
      modifies nodes
      ensures nodes == old(nodes) && At(this, Lowered(s, z), z.up)
    {
      Across(this, s, z);
      Paint(sibling, true, z.sib, SiblingPath(s, z));
      Ascend(this, z.sib.(red := true), SiblingPath(s, z));
    }

    // One turn of the rebalancing loop of a removal, for the side `cis` of the short subtree.
    method RebalanceAfterRemove(parent: Node, cis: Side, ghost s: Shape, ghost z: Path)
      returns (done: bool, ghost s': Shape, ghost z': Path)
      requires At(this, s, z) && Short(s, z) && z.d == cis && z.n == parent
      modifies `root, nodes
      ensures nodes == old(nodes) && At(this, s', z') && Flat(s', z') == Flat(s, z)
      ensures done ==> Sound(s', z')
      ensures !done ==> s'.Br? && s'.n == parent && Balanced(Black(s')) && PathBalanced(z', BlackHeight(s') + 1)
      ensures !done && !IsRed(s') ==> Height(z') < Height(z)
    {
      hide Flat, Balanced, Nodes;
      s', z' := s, z;
      assert RepPath(this, z, Root(s)) && Rep(z.sib, z.n);
      var sibling := parent.Kid(Other(cis));
      if sibling.red {
        RedSiblingShort(s, z);
        sibling := TurnRedSibling(parent, sibling, cis, s, z);
        z' := RedSiblingPath(z);
      }
      done, s', z' := RebalanceBlack(parent, sibling, cis, s, z');
    }

    // The rest of that turn, where the sibling is black.
    method RebalanceBlack(parent: Node, sibling: Node?, cis: Side, ghost s: Shape, ghost z: Path)
      returns (done: bool, ghost s': Shape, ghost z': Path)
      requires At(this, s, z) && Short(s, z) && z.d == cis && z.n == parent && !IsRed(z.sib) && sibling == Root(z.sib)
      modifies `root, nodes
      ensures nodes == old(nodes) && At(this, s', z') && Flat(s', z') == Flat(s, z)
      ensures done ==> Sound(s', z')
      ensures !done ==>
        z' == z.up && s' == Lowered(s, z) && Balanced(Black(s')) && PathBalanced(z', BlackHeight(s') + 1)
    {
      hide Nodes, Flat;
      assert z.sib.Br? && Rep(z.sib, z.n) && Rep(z.sib.l, sibling) && Rep(z.sib.r, sibling);
      var near, far := sibling.Kid(cis), sibling.Kid(Other(cis));
      if (near != null && near.red) || (far != null && far.red) {
        ghost var z1 := z;
        var sib: Node? := sibling;
        if far == null || !far.red {
          NearTurnedShort(s, z);
          sib := TurnNear(parent, sibling, near, cis, s, z);
          z1 := z.(sib := NearTurned(z.sib, z.d));
          assert RepPath(this, z1, Root(s)) && Rep(z1.sib, z1.n);
          far := sib.Kid(Other(cis));
        }
        FarTurnedBalanced(s, z1);
        TurnFar(parent, sib, far, cis, s, z1);
        done, s', z' := true, FarTurned(s, z1), z1.up;
      } else {
        LoweredShort(s, z);
        LowerSibling(sibling, s, z);
        done, s', z' := false, Lowered(s, z), z.up;
      }
    }

    // One turn, on whichever side the short subtree hangs; stops at a mended or at a red subtree.
    method Climb(node: Node?, p: Node, ghost s: Shape, ghost z: Path)
      returns (stop: bool, n: Node?, p': Node?, ghost s': Shape, ghost z': Path)
      requires At(this, s, z) && Short(s, z) && node == Root(s) && p == z.n
      modifies `root, nodes
      ensures nodes == old(nodes) && At(this, s', z') && n == Root(s') && Flat(s', z') == Flat(s, z)
      ensures stop ==> Sound(Black(s'), z')
      ensures !stop ==> p' == Holder(z') && !IsRed(s') && Balanced(s') && PathBalanced(z', BlackHeight(s') + 1)
      ensures !stop ==> Height(z') < Height(z)
    {
      hide Flat, Inorder, Holder;
      assert RepPath(this, z, node) && z.sib.Br?;
      hide Balanced, PathBalanced, Apart, Sound, Short, Plug, Black;
      stop, s', z' := RebalanceAfterRemove(p, if node == p.left then Left else Right, s, z);
      if stop {
        AtRoot(this, s', z');
        n, p', s', z' := root, null, Plug(s', z'), Top;
      } else {
        n, p' := p, p.parent;
        stop := n.red;
        BlackSound(s', z');
      }
    }

    // The rebalancing loop of a removal.
    method FixAfterRemove(node: Node?, parent: Node?, ghost s: Shape, ghost z: Path)
      returns (n: Node?, ghost s': Shape, ghost z': Path)
      requires At(this, s, z) && node == Root(s) && parent == Holder(z)
      requires !IsRed(s) && Balanced(s) && PathBalanced(z, BlackHeight(s) + 1)
      modifies `root, nodes
      ensures nodes == old(nodes) && At(this, s', z') && n == Root(s') && Flat(s', z') == Flat(s, z)
      ensures Sound(Black(s'), z')
    {
      hide Balanced, PathBalanced, Distinct, PathDistinct;
      var stop, p := false, parent;
      n, s', z' := node, s, z;
      RootOnPath(this, z', n);
      while !stop && n != root
        invariant nodes == old(nodes) && At(this, s', z') && n == Root(s') && Flat(s', z') == Flat(s, z)
        invariant stop ==> Sound(Black(s'), z')
        invariant !stop ==> p == Holder(z') && !IsRed(s') && Balanced(s') && PathBalanced(z', BlackHeight(s') + 1)
        invariant z'.Top? ==> n == root
        invariant !stop && z'.In? ==> n != root
        decreases !stop, Height(z')
      {
        stop, n, p, s', z' := Climb(n, p, s', z');
        RootOnPath(this, z', n);
      }
      if !stop {
        BlackTop(s');
      }
    }

    ghost method Finish(s: Shape, z: Path)
      requires At(this, s, z) && Sound(s, z) && Sorted(Flat(s, z))
      modifies `shape
      ensures Valid() && Items() == Flat(s, z)
    {
      AtRoot(this, s, z);
      shape := Plug(s, z);
    }

    // The second half of a removal: what came to the gap is painted black, after rebalancing if it was black.
    method Mend(node: Node?, parent: Node?, red: bool, ghost s: Shape, ghost z: Path)
      requires At(this, s, z) && node == Root(s) && parent == Holder(z) && Gap(s, z, red) && Sorted(Flat(s, z))
      modifies `root, `shape, nodes
      ensures Valid() && nodes == old(nodes) && Items() == Flat(s, z)
    {
      if red {
        Finish(s, z);
      } else if node != null && node.red {
        Paint(node, false, s, z);
        FlatBlack(s, z);
        Finish(Black(s), z);
      } else {
        var n, s1, z1 := FixAfterRemove(node, parent, s, z);
        if n != null {
          Paint(n, false, s1, z1);
        }
        FlatBlack(s1, z1);
        Finish(Black(s1), z1);
      }
    }

    // Removes a node of the tree.
    method Del(node: Node)
      requires Valid() && node in nodes
      modifies `root, `nodes, `shape, nodes
      ensures Valid() && nodes == old(nodes) - {node}
      ensures multiset(Items()) == multiset(old(Items())) - multiset{Item(old(node.key), node)}
    {
      hide RepPath, Flat, PathBalanced, Sorted, Inorder;
      FromRoot(shape, Top);
      ghost var s, z := Locate(this, node, shape, Top);
      assert s.key == node.key;
      var n, parent, red, c, z1 := TakeOut(node, s, z);
      Mend(n, parent, red, c, z1);
    }
  }
}
