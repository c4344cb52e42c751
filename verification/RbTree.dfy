/**
  In-place red-black tree with parent pointers and a colour flag.

  The heap nodes are mirrored by a ghost `Tree`.  A position inside the tree is a pair of a ghost
  `Path` (the way back to the root, with the siblings hanging off it) and the subtree found there.
  `Rep` ties such a pair to the heap; all heap reasoning sits in a few primitives (recolour, rotate,
  replace), and everything about order, colour and black height is proved on the ghost values.
 */
module RbTree {
  import opened Powers

  class RbNode {
    const key: int  // the interface index of the record the node is embedded in
    var parent: RbNode?
    var black: bool
    var left: RbNode?
    var right: RbNode?

    constructor (key: int)
      ensures this.key == key && parent == null && left == null && right == null && !black
    {
      this.key := key;
      parent, left, right, black := null, null, null, false;
    }
  }

  class RbRoot {
    var node: RbNode?

    constructor ()
      ensures node == null
    {
      node := null;
    }
  }

  // ----- Trees and positions -------------------------------------------------------------------

  datatype Tree = Nil | Bin(left: Tree, node: RbNode, black: bool, right: Tree)

  /** The way from a subtree up to the root; `InLeft` says the subtree is the left child. */
  datatype Path =
    | Top
    | InLeft(up: Path, node: RbNode, black: bool, other: Tree)
    | InRight(other: Tree, node: RbNode, black: bool, up: Path)

  ghost function RootOf(t: Tree): RbNode? {
    if t.Nil? then null else t.node
  }

  ghost function ParentOf(z: Path): RbNode? {
    if z.Top? then null else z.node
  }

  /** One step up: the subtree rooted at the parent of the hole. */
  ghost function Attach(z: Path, t: Tree): Tree
    requires !z.Top?
  {
    if z.InLeft? then Bin(t, z.node, z.black, z.other) else Bin(z.other, z.node, z.black, t)
  }

  ghost function Plug(z: Path, t: Tree): Tree
    decreases z
  {
    if z.Top? then t else Plug(z.up, Attach(z, t))
  }

  /** `inner` continued by `outer`. */
  ghost function Append(inner: Path, outer: Path): Path {
    match inner
    case Top => outer
    case InLeft(up, n, b, o) => InLeft(Append(up, outer), n, b, o)
    case InRight(o, n, b, up) => InRight(o, n, b, Append(up, outer))
  }

  ghost function Nodes(t: Tree): set<RbNode> {
    if t.Nil? then {} else Nodes(t.left) + {t.node} + Nodes(t.right)
  }

  ghost function PathNodes(z: Path): set<RbNode> {
    if z.Top? then {} else PathNodes(z.up) + {z.node} + Nodes(z.other)
  }

  ghost function InOrder(t: Tree): seq<RbNode> {
    if t.Nil? then [] else InOrder(t.left) + [t.node] + InOrder(t.right)
  }

  ghost predicate Distinct(t: Tree) {
    t.Bin? ==>
      && t.node !in Nodes(t.left) && t.node !in Nodes(t.right)
      && Nodes(t.left) !! Nodes(t.right)
      && Distinct(t.left) && Distinct(t.right)
  }

  ghost predicate PathDistinct(z: Path) {
    !z.Top? ==>
      && z.node !in Nodes(z.other) && z.node !in PathNodes(z.up)
      && Nodes(z.other) !! PathNodes(z.up)
      && Distinct(z.other) && PathDistinct(z.up)
  }

  // ----- The heap mirrors the ghost values -----------------------------------------------------

  datatype Cell = Cell(left: RbNode?, right: RbNode?, parent: RbNode?, black: bool)

  type Cells = map<RbNode, Cell>

  ghost function Snapshot(s: set<RbNode>): (m: Cells)
    reads s
  {
    map n | n in s :: Cell(n.left, n.right, n.parent, n.black)
  }

  ghost predicate Links(t: Tree, parent: RbNode?, m: Cells) {
    t.Bin? ==>
      && t.node in m
      && m[t.node] == Cell(RootOf(t.left), RootOf(t.right), parent, t.black)
      && Links(t.left, t.node, m) && Links(t.right, t.node, m)
  }

  ghost function FrameCell(z: Path, hole: RbNode?): Cell
    requires !z.Top?
  {
    if z.InLeft? then Cell(hole, RootOf(z.other), ParentOf(z.up), z.black)
    else Cell(RootOf(z.other), hole, ParentOf(z.up), z.black)
  }

  ghost predicate PathLinks(z: Path, hole: RbNode?, m: Cells, top: RbNode?) {
    if z.Top? then top == hole else
      && z.node in m && m[z.node] == FrameCell(z, hole)
      && Links(z.other, z.node, m) && PathLinks(z.up, z.node, m, top)
  }

  /** The cells `m`, entered at `top`, hold exactly the subtree `t` at position `z`. */
  ghost predicate Holds(z: Path, t: Tree, m: Cells, top: RbNode?) {
    && PathNodes(z) + Nodes(t) == m.Keys
    && PathNodes(z) !! Nodes(t)
    && PathDistinct(z) && Distinct(t)
    && PathLinks(z, RootOf(t), m, top)
    && Links(t, ParentOf(z), m)
  }

  ghost predicate Rep(z: Path, t: Tree, root: RbRoot, s: set<RbNode>)
    reads root, s
  {
    Holds(z, t, Snapshot(s), root.node)
  }

  ghost predicate Same(ns: set<RbNode>, m: Cells, m': Cells) {
    forall n | n in ns :: n in m && n in m' && m'[n] == m[n]
  }

  lemma LinksFrame(t: Tree, parent: RbNode?, m: Cells, m': Cells)
    requires Links(t, parent, m) && Same(Nodes(t), m, m')
    ensures Links(t, parent, m')
  {
    if t.Bin? {
      LinksFrame(t.left, t.node, m, m');
      LinksFrame(t.right, t.node, m, m');
    }
  }

  lemma PathFrame(z: Path, hole: RbNode?, m: Cells, m': Cells, top: RbNode?)
    requires PathLinks(z, hole, m, top) && Same(PathNodes(z), m, m')
    ensures PathLinks(z, hole, m', top)
  {
    if !z.Top? {
      LinksFrame(z.other, z.node, m, m');
      PathFrame(z.up, z.node, m, m', top);
    }
  }

  /** Assigning the parent field of its root reparents a whole subtree. */
  lemma Reparent(t: Tree, was: RbNode?, now: RbNode?, m: Cells, m': Cells)
    requires Links(t, was, m) && Distinct(t)
    requires t.Bin? ==> Same(Nodes(t) - {t.node}, m, m') && t.node in m'
                        && m'[t.node] == m[t.node].(parent := now)
    ensures Links(t, now, m')
  {
    if t.Bin? {
      LinksFrame(t.left, t.node, m, m');
      LinksFrame(t.right, t.node, m, m');
    }
  }

  /** Assigning one slot (the parent's child field, or the root) changes what a position holds. */
  lemma Rehang(z: Path, was: RbNode?, now: RbNode?, m: Cells, m': Cells, top: RbNode?, top': RbNode?)
    requires PathLinks(z, was, m, top) && PathDistinct(z)
    requires z.Top? ==> top' == now
    requires !z.Top? ==> top' == top && Same(PathNodes(z) - {z.node}, m, m') && z.node in m'
                         && m'[z.node] == (if z.InLeft? then m[z.node].(left := now) else m[z.node].(right := now))
    ensures PathLinks(z, now, m', top')
  {
    if !z.Top? {
      LinksFrame(z.other, z.node, m, m');
      PathFrame(z.up, z.node, m, m', top);
    }
  }

  lemma Ascend(z: Path, t: Tree, m: Cells, top: RbNode?)
    requires Holds(z, t, m, top) && !z.Top?
    ensures Holds(z.up, Attach(z, t), m, top)
  {
  }

  ghost function LeftHole(z: Path, t: Tree): Path
    requires t.Bin?
  {
    InLeft(z, t.node, t.black, t.right)
  }

  ghost function RightHole(z: Path, t: Tree): Path
    requires t.Bin?
  {
    InRight(t.left, t.node, t.black, z)
  }

  lemma DescendLeft(z: Path, t: Tree, m: Cells, top: RbNode?)
    requires Holds(z, t, m, top) && t.Bin?
    ensures Holds(LeftHole(z, t), t.left, m, top)
  {
  }

  lemma DescendRight(z: Path, t: Tree, m: Cells, top: RbNode?)
    requires Holds(z, t, m, top) && t.Bin?
    ensures Holds(RightHole(z, t), t.right, m, top)
  {
  }

  /** A position and the whole tree describe the same heap. */
  lemma {:induction false} Whole(z: Path, t: Tree, m: Cells, top: RbNode?)
    requires Holds(z, t, m, top)
    ensures Holds(Top, Plug(z, t), m, top)
    decreases z
  {
    if !z.Top? {
      Ascend(z, t, m, top);
      Whole(z.up, Attach(z, t), m, top);
    }
  }

  lemma Recolour(z: Path, t: Tree, m: Cells, top: RbNode?, black: bool)
    requires Holds(z, t, m, top) && t.Bin?
    ensures Holds(z, t.(black := black), m[t.node := m[t.node].(black := black)], top)
  {
    var m' := m[t.node := m[t.node].(black := black)];
    LinksFrame(t.left, t.node, m, m');
    LinksFrame(t.right, t.node, m, m');
    PathFrame(z, t.node, m, m', top);
  }

  // The same steps on the heap, and what a position lets one read.

  lemma Up(z: Path, t: Tree, root: RbRoot, s: set<RbNode>)
    requires Rep(z, t, root, s) && !z.Top?
    ensures Rep(z.up, Attach(z, t), root, s)
  {
    Ascend(z, t, Snapshot(s), root.node);
  }

  lemma DownLeft(z: Path, t: Tree, root: RbRoot, s: set<RbNode>)
    requires Rep(z, t, root, s) && t.Bin?
    ensures Rep(LeftHole(z, t), t.left, root, s)
  {
    DescendLeft(z, t, Snapshot(s), root.node);
  }

  lemma DownRight(z: Path, t: Tree, root: RbRoot, s: set<RbNode>)
    requires Rep(z, t, root, s) && t.Bin?
    ensures Rep(RightHole(z, t), t.right, root, s)
  {
    DescendRight(z, t, Snapshot(s), root.node);
  }

  lemma Look(z: Path, t: Tree, root: RbRoot, s: set<RbNode>)
    requires Rep(z, t, root, s)
    ensures t.Bin? ==>
      && t.node in s && t.node.parent == ParentOf(z) && t.node.black == t.black
      && t.node.left == RootOf(t.left) && t.node.right == RootOf(t.right)
      && (t.left.Bin? ==> t.left.node in s && t.left.node != t.node && t.left.node.black == t.left.black)
      && (t.right.Bin? ==> t.right.node in s && t.right.node != t.node && t.right.node.black == t.right.black)
    ensures t.Bin? && t.left.Bin? ==> RootOf(t.right) != t.left.node
    ensures z.Top? ==> root.node == RootOf(t)
    ensures !z.Top? ==>
      && z.node in s && z.node.black == z.black && z.node.parent == ParentOf(z.up) && z.node != RootOf(t)
      && (z.InLeft? ==> z.node.left == RootOf(t) && z.node.right == RootOf(z.other))
      && (z.InRight? ==> z.node.right == RootOf(t) && z.node.left == RootOf(z.other))
      && (t.Bin? ==> RootOf(z.other) != t.node)
  {
    var m := Snapshot(s);
    assert t.Bin? ==> Links(t.left, t.node, m) && Links(t.right, t.node, m);
  }

  method SetColor(n: RbNode, black: bool, root: RbRoot, ghost z: Path, ghost t: Tree, ghost s: set<RbNode>)
    requires Rep(z, t, root, s) && t.Bin? && t.node == n
    modifies s
    ensures Rep(z, t.(black := black), root, s)
  {
    Recolour(z, t, Snapshot(s), root.node, black);
    n.black := black;
    assert Snapshot(s) == old(Snapshot(s))[n := old(Snapshot(s))[n].(black := black)];
  }

  ghost function RotL(t: Tree): Tree
    requires t.Bin? && t.right.Bin?
  {
    Bin(Bin(t.left, t.node, t.black, t.right.left), t.right.node, t.right.black, t.right.right)
  }

  ghost function RotR(t: Tree): Tree
    requires t.Bin? && t.left.Bin?
  {
    Bin(t.left.left, t.left.node, t.left.black, Bin(t.left.right, t.node, t.black, t.right))
  }

  lemma Regroup(a: seq<RbNode>, x: RbNode, b: seq<RbNode>, y: RbNode, c: seq<RbNode>)
    ensures (a + [x] + b) + [y] + c == a + [x] + (b + [y] + c)
  {
  }

  /** Rotations keep the in-order sequence and move no node in or out. */
  lemma RotLOrder(t: Tree)
    requires t.Bin? && t.right.Bin?
    ensures InOrder(RotL(t)) == InOrder(t)
  {
    Regroup(InOrder(t.left), t.node, InOrder(t.right.left), t.right.node, InOrder(t.right.right));
  }

  lemma RotROrder(t: Tree)
    requires t.Bin? && t.left.Bin?
    ensures InOrder(RotR(t)) == InOrder(t)
  {
    Regroup(InOrder(t.left.left), t.left.node, InOrder(t.left.right), t.node, InOrder(t.right));
  }

  lemma RotLShape(t: Tree)
    requires t.Bin? && t.right.Bin? && Distinct(t)
    ensures Nodes(RotL(t)) == Nodes(t) && Distinct(RotL(t))
  {
    assert Nodes(t) == Nodes(t.left) + {t.node} + Nodes(t.right);
    assert Nodes(t.right) == Nodes(t.right.left) + {t.right.node} + Nodes(t.right.right);
  }

  lemma RotRShape(t: Tree)
    requires t.Bin? && t.left.Bin? && Distinct(t)
    ensures Nodes(RotR(t)) == Nodes(t) && Distinct(RotR(t))
  {
    assert Nodes(t) == Nodes(t.left) + {t.node} + Nodes(t.right);
    assert Nodes(t.left) == Nodes(t.left.left) + {t.left.node} + Nodes(t.left.right);
  }

  /** `m'` differs from `m` at most on `ns`. */
  ghost predicate SameBut(ns: set<RbNode>, m: Cells, m': Cells) {
    m'.Keys == m.Keys && forall n | n in m && n !in ns :: m'[n] == m[n]
  }

  ghost predicate Rehung(z: Path, now: RbNode?, m: Cells, m': Cells, top: RbNode?, top': RbNode?) {
    if z.Top? then top' == now
    else top' == top && z.node in m && z.node in m'
         && m'[z.node] == (if z.InLeft? then m[z.node].(left := now) else m[z.node].(right := now))
  }

  ghost function Tops(z: Path, t: Tree): set<RbNode> {
    (if z.Top? then {} else {z.node}) + (if t.Nil? then {} else {t.node})
  }

  ghost function Opt(n: RbNode?): set<RbNode> {
    if n == null then {} else {n}
  }

  lemma RotatedLeft(z: Path, t: Tree, m: Cells, top: RbNode?, m': Cells, top': RbNode?)
    requires Holds(z, t, m, top) && t.Bin? && t.right.Bin?
    requires SameBut({t.node, t.right.node} + Tops(z, t.right.left), m, m')
    requires m'[t.node] == m[t.node].(right := RootOf(t.right.left), parent := t.right.node)
    requires m'[t.right.node] == m[t.right.node].(left := t.node, parent := ParentOf(z))
    requires t.right.left.Bin? ==> t.right.left.node in m
                                   && m'[t.right.left.node] == m[t.right.left.node].(parent := t.node)
    requires Rehung(z, t.right.node, m, m', top, top')
    ensures Holds(z, RotL(t), m', top')
  {
    RotLShape(t);
    assert Links(t.right, t.node, m);
    LinksFrame(t.left, t.node, m, m');
    Reparent(t.right.left, t.right.node, t.node, m, m');
    LinksFrame(t.right.right, t.right.node, m, m');
    Rehang(z, t.node, t.right.node, m, m', top, top');
  }

  /** The assignments of a left rotation; `hangsLeft` says which slot of the parent holds `node`. */
  method TurnLeft(node: RbNode, root: RbRoot, ghost hangsLeft: bool)
    requires var r, p := node.right, node.parent;
      && r != null && r != node && r != p && p != node
      && (r.left != null ==> r.left != node && r.left != r && r.left != p)
      && (p != null ==> if hangsLeft then p.left == node else p.left != node)
    modifies root, node, node.right, Opt(node.right.left), Opt(node.parent)
    ensures var r, b, p := old(node.right), old(node.right.left), old(node.parent);
      && node.right == b && node.parent == r && node.left == old(node.left) && node.black == old(node.black)
      && r.left == node && r.parent == p && r.right == old(node.right.right) && r.black == old(node.right.black)
      && (b != null ==> b.parent == node && unchanged(b`left, b`right, b`black))
      && (if p == null then root.node == r else
           && root.node == old(root.node) && unchanged(p`parent, p`black)
           && if hangsLeft then p.left == r && unchanged(p`right) else p.right == r && unchanged(p`left))
  {
    var right: RbNode := node.right;
    var parent := node.parent;
    node.right := right.left;
    if node.right != null {
      right.left.parent := node;
    }
    right.left := node;
    right.parent := parent;
    if parent != null {
      if node == parent.left {
        parent.left := right;
      } else {
        parent.right := right;
      }
    } else {
      root.node := right;
    }
    node.parent := right;
  }

  method RotateLeft(node: RbNode, root: RbRoot, ghost z: Path, ghost t: Tree, ghost s: set<RbNode>)
    requires Rep(z, t, root, s) && t.Bin? && t.node == node && t.right.Bin?
    modifies root, s
    ensures Rep(z, RotL(t), root, s)
  {
    ghost var m, top := Snapshot(s), root.node;
    assert Links(t.right, node, m) && Links(t.right.left, t.right.node, m);
    TurnLeft(node, root, z.InLeft?);
    RotatedLeft(z, t, m, top, Snapshot(s), root.node);
  }

  lemma RotatedRight(z: Path, t: Tree, m: Cells, top: RbNode?, m': Cells, top': RbNode?)
    requires Holds(z, t, m, top) && t.Bin? && t.left.Bin?
    requires SameBut({t.node, t.left.node} + Tops(z, t.left.right), m, m')
    requires m'[t.node] == m[t.node].(left := RootOf(t.left.right), parent := t.left.node)
    requires m'[t.left.node] == m[t.left.node].(right := t.node, parent := ParentOf(z))
    requires t.left.right.Bin? ==> t.left.right.node in m
                                   && m'[t.left.right.node] == m[t.left.right.node].(parent := t.node)
    requires Rehung(z, t.left.node, m, m', top, top')
    ensures Holds(z, RotR(t), m', top')
  {
    RotRShape(t);
    assert Links(t.left, t.node, m);
    LinksFrame(t.right, t.node, m, m');
    Reparent(t.left.right, t.left.node, t.node, m, m');
    LinksFrame(t.left.left, t.left.node, m, m');
    Rehang(z, t.node, t.left.node, m, m', top, top');
  }

  /** The assignments of a right rotation; `hangsRight` says which slot of the parent holds `node`. */
  method TurnRight(node: RbNode, root: RbRoot, ghost hangsRight: bool)
    requires var r, p := node.left, node.parent;
      && r != null && r != node && r != p && p != node
      && (r.right != null ==> r.right != node && r.right != r && r.right != p)
      && (p != null ==> if hangsRight then p.right == node else p.right != node)
    modifies root, node, node.left, Opt(node.left.right), Opt(node.parent)
    ensures var r, b, p := old(node.left), old(node.left.right), old(node.parent);
      && node.left == b && node.parent == r && node.right == old(node.right) && node.black == old(node.black)
      && r.right == node && r.parent == p && r.left == old(node.left.left) && r.black == old(node.left.black)
      && (b != null ==> b.parent == node && unchanged(b`right, b`left, b`black))
      && (if p == null then root.node == r else
           && root.node == old(root.node) && unchanged(p`parent, p`black)
           && if hangsRight then p.right == r && unchanged(p`left) else p.left == r && unchanged(p`right))
  {
    var left: RbNode := node.left;
    var parent := node.parent;
    node.left := left.right;
    if node.left != null {
      left.right.parent := node;
    }
    left.right := node;
    left.parent := parent;
    if parent != null {
      if node == parent.right {
        parent.right := left;
      } else {
        parent.left := left;
      }
    } else {
      root.node := left;
    }
    node.parent := left;
  }

  method RotateRight(node: RbNode, root: RbRoot, ghost z: Path, ghost t: Tree, ghost s: set<RbNode>)
    requires Rep(z, t, root, s) && t.Bin? && t.node == node && t.left.Bin?
    modifies root, s
    ensures Rep(z, RotR(t), root, s)
  {
    ghost var m, top := Snapshot(s), root.node;
    assert Links(t.left, node, m) && Links(t.left.right, t.left.node, m);
    TurnRight(node, root, z.InRight?);
    RotatedRight(z, t, m, top, Snapshot(s), root.node);
  }

  /** Recolours the left child of the node at a position. */
  method SetLeftColor(n: RbNode, black: bool, root: RbRoot, ghost z: Path, ghost t: Tree, ghost s: set<RbNode>)
    requires Rep(z, t, root, s) && t.Bin? && t.left.Bin? && t.left.node == n
    modifies s
    ensures Rep(z, t.(left := t.left.(black := black)), root, s)
  {
    hide Holds;
    DownLeft(z, t, root, s);
    SetColor(n, black, root, LeftHole(z, t), t.left, s);
    Up(LeftHole(z, t), t.left.(black := black), root, s);
  }

  method SetRightColor(n: RbNode, black: bool, root: RbRoot, ghost z: Path, ghost t: Tree, ghost s: set<RbNode>)
    requires Rep(z, t, root, s) && t.Bin? && t.right.Bin? && t.right.node == n
    modifies s
    ensures Rep(z, t.(right := t.right.(black := black)), root, s)
  {
    hide Holds;
    DownRight(z, t, root, s);
    SetColor(n, black, root, RightHole(z, t), t.right, s);
    Up(RightHole(z, t), t.right.(black := black), root, s);
  }

  // ----- Colour and balance --------------------------------------------------------------------

  ghost predicate IsBlack(t: Tree) {
    t.Nil? || t.black
  }

  ghost function BlackHeight(t: Tree): nat {
    if t.Nil? then 0 else BlackHeight(t.left) + if t.black then 1 else 0
  }

  ghost predicate Balanced(t: Tree) {
    t.Bin? ==> Balanced(t.left) && Balanced(t.right) && BlackHeight(t.left) == BlackHeight(t.right)
  }

  ghost predicate RedOk(t: Tree) {
    t.Bin? ==> RedOk(t.left) && RedOk(t.right) && (t.black || (IsBlack(t.left) && IsBlack(t.right)))
  }

  /** The red-black invariants: black root, no red-red edge, equal black heights. */
  ghost predicate RedBlack(t: Tree) {
    IsBlack(t) && RedOk(t) && Balanced(t)
  }

  /** What the path expects of the hole: black height `h`. */
  ghost predicate PathBalanced(z: Path, h: nat) {
    !z.Top? ==> Balanced(z.other) && BlackHeight(z.other) == h && PathBalanced(z.up, h + if z.black then 1 else 0)
  }

  /** No red-red edge along the path, for a hole that is black (`b`) or red. */
  ghost predicate PathRedOk(z: Path, b: bool) {
    !z.Top? ==> RedOk(z.other) && (z.black || (b && IsBlack(z.other))) && PathRedOk(z.up, z.black)
  }

  ghost predicate PathRootBlack(z: Path) {
    !z.Top? ==> if z.up.Top? then z.black else PathRootBlack(z.up)
  }

  ghost function PathLen(z: Path): nat {
    if z.Top? then 0 else 1 + PathLen(z.up)
  }

  ghost function Before(z: Path): seq<RbNode> {
    match z
    case Top => []
    case InLeft(up, _, _, _) => Before(up)
    case InRight(o, n, _, up) => Before(up) + InOrder(o) + [n]
  }

  ghost function After(z: Path): seq<RbNode> {
    match z
    case Top => []
    case InLeft(up, n, _, o) => [n] + InOrder(o) + After(up)
    case InRight(_, _, _, up) => After(up)
  }

  lemma {:induction false} PlugInOrder(z: Path, t: Tree)
    ensures InOrder(Plug(z, t)) == Before(z) + InOrder(t) + After(z)
    decreases z
  {
    if !z.Top? {
      PlugInOrder(z.up, Attach(z, t));
    }
  }

  lemma SameOrder(z: Path, t: Tree, t': Tree)
    requires InOrder(t) == InOrder(t')
    ensures InOrder(Plug(z, t)) == InOrder(Plug(z, t'))
  {
    PlugInOrder(z, t);
    PlugInOrder(z, t');
  }

  lemma {:induction false} PlugBalanced(z: Path, t: Tree)
    ensures Balanced(Plug(z, t)) <==> Balanced(t) && PathBalanced(z, BlackHeight(t))
    decreases z
  {
    if !z.Top? {
      PlugBalanced(z.up, Attach(z, t));
    }
  }

  lemma {:induction false} PlugRedOk(z: Path, t: Tree)
    ensures RedOk(Plug(z, t)) <==> RedOk(t) && PathRedOk(z, IsBlack(t))
    decreases z
  {
    if !z.Top? {
      PlugRedOk(z.up, Attach(z, t));
    }
  }

  lemma {:induction false} PlugRoot(z: Path, t: Tree)
    ensures IsBlack(Plug(z, t)) <==> if z.Top? then IsBlack(t) else PathRootBlack(z)
    ensures t.Bin? ==> Plug(z, t).Bin?
    decreases z
  {
    if !z.Top? {
      PlugRoot(z.up, Attach(z, t));
    }
  }

  // ----- Insertion -----------------------------------------------------------------------------

  /** The focus has the black height its path expects, and the path itself is free of faults. */
  ghost predicate Level(z: Path, t: Tree) {
    Balanced(t) && PathBalanced(z, BlackHeight(t)) && PathRedOk(z, true) && PathRootBlack(z)
  }

  /** Red focus; the only possible fault is a red parent (or a red root). */
  ghost predicate RedFault(z: Path, t: Tree) {
    t.Bin? && !t.black && RedOk(t) && Level(z, t)
  }

  /** A red parent has a black grandparent above it. */
  lemma Grandparent(z: Path, t: Tree)
    requires RedFault(z, t) && !z.Top? && !z.black
    ensures !z.up.Top? && z.up.black
    ensures Level(z.up.up, Attach(z.up, Attach(z, t)))
    ensures RedOk(z.other) && IsBlack(z.other) && RedOk(z.up.other)
  {
    assert PathRedOk(z.up, false) && PathRootBlack(z.up);
    assert PathBalanced(z.up, BlackHeight(t));
    var p := Attach(z, t);
    assert Balanced(p) && BlackHeight(p) == BlackHeight(t);
    var g := Attach(z.up, p);
    assert Balanced(g) && BlackHeight(g) == BlackHeight(t) + 1;
  }

  /** Two red children pass their blackness to a black parent. */
  lemma PushRedUp(l: Tree, g: RbNode, r: Tree)
    requires l.Bin? && !l.black && r.Bin? && !r.black && Balanced(Bin(l, g, true, r))
    requires RedOk(l.left) && RedOk(l.right) && RedOk(r.left) && RedOk(r.right)
    ensures var t := Bin(l.(black := true), g, false, r.(black := true));
      RedOk(t) && Balanced(t) && BlackHeight(t) == BlackHeight(Bin(l, g, true, r))
  {
    assert Balanced(l) && Balanced(r);
    var l', r' := l.(black := true), r.(black := true);
    assert Balanced(l') && Balanced(r') && BlackHeight(l') == BlackHeight(l) + 1 == BlackHeight(r');
    assert RedOk(l') && RedOk(r');
  }

  lemma TurnedRight(z: Path, n: Tree, p: RbNode, c: Tree, g: RbNode, u: Tree)
    requires Level(z, Bin(Bin(n, p, false, c), g, true, u))
    requires n.Bin? && !n.black && RedOk(n) && RedOk(c) && IsBlack(c) && RedOk(u) && IsBlack(u)
    ensures RedFault(InLeft(z, p, true, Bin(c, g, false, u)), n)
  {
    assert Balanced(Bin(n, p, false, c)) && BlackHeight(n) == BlackHeight(c) == BlackHeight(u);
    var w := Bin(c, g, false, u);
    assert Balanced(w) && BlackHeight(w) == BlackHeight(n) && RedOk(w);
    assert PathBalanced(z, BlackHeight(n) + 1);
  }

  lemma InnerLeft(t: Tree)
    requires t.Bin? && !t.black && t.right.Bin? && !t.right.black && Balanced(t)
    requires RedOk(t.left) && IsBlack(t.left) && RedOk(t.right)
    ensures var r := RotL(t); Balanced(r) && BlackHeight(r) == BlackHeight(t) && RedOk(r.left) && RedOk(r.right)
                              && IsBlack(r.right)
  {
    assert Balanced(t.right);
    assert Balanced(Bin(t.left, t.node, t.black, t.right.left));
  }

  lemma TurnedLeft(z: Path, n: Tree, p: RbNode, c: Tree, g: RbNode, u: Tree)
    requires Level(z, Bin(u, g, true, Bin(c, p, false, n)))
    requires n.Bin? && !n.black && RedOk(n) && RedOk(c) && IsBlack(c) && RedOk(u) && IsBlack(u)
    ensures RedFault(InRight(Bin(u, g, false, c), p, true, z), n)
  {
    assert Balanced(Bin(c, p, false, n)) && BlackHeight(n) == BlackHeight(c) == BlackHeight(u);
    var w := Bin(u, g, false, c);
    assert Balanced(w) && BlackHeight(w) == BlackHeight(n) && RedOk(w);
    assert PathBalanced(z, BlackHeight(n) + 1);
  }

  lemma InnerRight(t: Tree)
    requires t.Bin? && !t.black && t.left.Bin? && !t.left.black && Balanced(t)
    requires RedOk(t.right) && IsBlack(t.right) && RedOk(t.left)
    ensures var r := RotR(t); Balanced(r) && BlackHeight(r) == BlackHeight(t) && RedOk(r.left) && RedOk(r.right)
                              && IsBlack(r.left)
  {
    assert Balanced(t.left);
    assert Balanced(Bin(t.left.right, t.node, t.black, t.right));
  }


  /** The closing rotation of an insertion whose parent is a left child with a red left child. */
  method InsertTurnRight(parent: RbNode, gparent: RbNode, root: RbRoot,
                         ghost zp: Path, ghost p: Tree, ghost s: set<RbNode>)
    returns (ghost z': Path, ghost t': Tree)
    requires Rep(zp, p, root, s) && p.Bin? && p.node == parent && zp.InLeft? && zp.node == gparent && zp.black
    requires p.left.Bin? && !p.left.black && RedOk(p.left) && RedOk(p.right) && IsBlack(p.right) && !p.black
    requires RedOk(zp.other) && IsBlack(zp.other) && Level(zp.up, Attach(zp, p))
    modifies root, s
    ensures Rep(z', t', root, s) && RedFault(z', t') && t' == p.left
    ensures PathLen(z') == PathLen(zp) && InOrder(Plug(z', t')) == InOrder(Plug(zp, p)) && z'.node == parent && z'.black
  {
    hide Holds;
    ghost var zz := zp.up;
    SetColor(parent, true, root, zp, p, s);
    ghost var p1 := p.(black := true);
    Up(zp, p1, root, s);
    ghost var g1 := Attach(zp, p1);
    SetColor(gparent, false, root, zz, g1, s);
    ghost var g2 := g1.(black := false);
    RotateRight(gparent, root, zz, g2, s);
    ghost var r := RotR(g2);
    DownLeft(zz, r, root, s);
    z', t' := LeftHole(zz, r), r.left;
    TurnedRight(zz, p.left, parent, p.right, gparent, zp.other);
    RotROrder(g2);
    SameOrder(zz, Attach(zp, p), r);
  }

  /** One round of the insertion loop when the parent is a left child. */
  method InsertRoundLeft(node0: RbNode, parent0: RbNode, gparent: RbNode, root: RbRoot,
                         ghost z: Path, ghost t: Tree, ghost s: set<RbNode>)
    returns (node: RbNode, ghost z': Path, ghost t': Tree)
    requires Rep(z, t, root, s) && RedFault(z, t) && t.node == node0
    requires !z.Top? && z.node == parent0 && !z.black && z.up.InLeft? && z.up.node == gparent
    modifies root, s
    ensures Rep(z', t', root, s) && RedFault(z', t') && t'.node == node
    ensures PathLen(z') < PathLen(z) && InOrder(Plug(z', t')) == InOrder(Plug(z, t))
  {
    hide Holds;
    node := node0;
    var parent := parent0;
    Grandparent(z, t);
    ghost var p, zp, zz := Attach(z, t), z.up, z.up.up;
    ghost var g := Attach(zp, p);
    Up(z, t, root, s);
    Up(zp, p, root, s);
    Look(zz, g, root, s);
    Look(zp, p, root, s);
    var uncle := gparent.right;
    if uncle != null && !uncle.black {
      PushRedUp(g.left, gparent, g.right);
      SetRightColor(uncle, true, root, zz, g, s);
      ghost var g1 := g.(right := g.right.(black := true));
      SetLeftColor(parent, true, root, zz, g1, s);
      ghost var g2 := g1.(left := g1.left.(black := true));
      SetColor(gparent, false, root, zz, g2, s);
      node, z', t' := gparent, zz, g2.(black := false);
      SameOrder(zz, g, t');
    } else {
      if parent.right == node {
        InnerLeft(p);
        RotLOrder(p);
        RotateLeft(parent, root, zp, p, s);
        SameOrder(zp, p, RotL(p));
        p := RotL(p);
        node, parent := parent, node;
      }
      z', t' := InsertTurnRight(parent, gparent, root, zp, p, s);
    }
  }

  /** The closing rotation of an insertion whose parent is a right child with a red right child. */
  method InsertTurnLeft(parent: RbNode, gparent: RbNode, root: RbRoot,
                         ghost zp: Path, ghost p: Tree, ghost s: set<RbNode>)
    returns (ghost z': Path, ghost t': Tree)
    requires Rep(zp, p, root, s) && p.Bin? && p.node == parent && zp.InRight? && zp.node == gparent && zp.black
    requires p.right.Bin? && !p.right.black && RedOk(p.right) && RedOk(p.left) && IsBlack(p.left) && !p.black
    requires RedOk(zp.other) && IsBlack(zp.other) && Level(zp.up, Attach(zp, p))
    modifies root, s
    ensures Rep(z', t', root, s) && RedFault(z', t') && t' == p.right
    ensures PathLen(z') == PathLen(zp) && InOrder(Plug(z', t')) == InOrder(Plug(zp, p)) && z'.node == parent && z'.black
  {
    hide Holds;
    ghost var zz := zp.up;
    SetColor(parent, true, root, zp, p, s);
    ghost var p1 := p.(black := true);
    Up(zp, p1, root, s);
    ghost var g1 := Attach(zp, p1);
    SetColor(gparent, false, root, zz, g1, s);
    ghost var g2 := g1.(black := false);
    RotateLeft(gparent, root, zz, g2, s);
    ghost var r := RotL(g2);
    DownRight(zz, r, root, s);
    z', t' := RightHole(zz, r), r.right;
    TurnedLeft(zz, p.right, parent, p.left, gparent, zp.other);
    RotLOrder(g2);
    SameOrder(zz, Attach(zp, p), r);
  }

  /** One round of the insertion loop when the parent is a right child. */
  method InsertRoundRight(node0: RbNode, parent0: RbNode, gparent: RbNode, root: RbRoot,
                         ghost z: Path, ghost t: Tree, ghost s: set<RbNode>)
    returns (node: RbNode, ghost z': Path, ghost t': Tree)
    requires Rep(z, t, root, s) && RedFault(z, t) && t.node == node0
    requires !z.Top? && z.node == parent0 && !z.black && z.up.InRight? && z.up.node == gparent
    modifies root, s
    ensures Rep(z', t', root, s) && RedFault(z', t') && t'.node == node
    ensures PathLen(z') < PathLen(z) && InOrder(Plug(z', t')) == InOrder(Plug(z, t))
  {
    hide Holds;
    node := node0;
    var parent := parent0;
    Grandparent(z, t);
    ghost var p, zp, zz := Attach(z, t), z.up, z.up.up;
    ghost var g := Attach(zp, p);
    Up(z, t, root, s);
    Up(zp, p, root, s);
    Look(zz, g, root, s);
    Look(zp, p, root, s);
    var uncle := gparent.left;
    if uncle != null && !uncle.black {
      PushRedUp(g.right, gparent, g.left);
      SetLeftColor(uncle, true, root, zz, g, s);
      ghost var g1 := g.(left := g.left.(black := true));
      SetRightColor(parent, true, root, zz, g1, s);
      ghost var g2 := g1.(right := g1.right.(black := true));
      SetColor(gparent, false, root, zz, g2, s);
      node, z', t' := gparent, zz, g2.(black := false);
      SameOrder(zz, g, t');
    } else {
      if parent.left == node {
        InnerRight(p);
        RotROrder(p);
        RotateRight(parent, root, zp, p, s);
        SameOrder(zp, p, RotR(p));
        p := RotR(p);
        node, parent := parent, node;
      }
      z', t' := InsertTurnLeft(parent, gparent, root, zp, p, s);
    }
  }

  /** Rebalances after a red node was linked in: the only fault on entry is that node against its parent. */
  method InsertColor(node0: RbNode, root: RbRoot, ghost z0: Path, ghost t0: Tree, ghost s: set<RbNode>)
    returns (ghost tree: Tree)
    requires Rep(z0, t0, root, s) && RedFault(z0, t0) && t0.node == node0
    modifies root, s
    ensures Rep(Top, tree, root, s) && RedBlack(tree) && InOrder(tree) == InOrder(Plug(z0, t0))
  {
    hide Holds;
    var node := node0;
    ghost var z, t := z0, t0;
    Look(z, t, root, s);
    var parent := node.parent;
    while parent != null && !parent.black
      invariant Rep(z, t, root, s) && RedFault(z, t) && t.node == node && t.node in s
      invariant InOrder(Plug(z, t)) == InOrder(Plug(z0, t0))
      invariant parent == ParentOf(z) && (parent != null ==> parent.black == z.black)
      decreases PathLen(z)
    {
      Grandparent(z, t);
      Up(z, t, root, s);
      Look(z.up, Attach(z, t), root, s);
      var gparent: RbNode := parent.parent;
      if parent == gparent.left {
        node, z, t := InsertRoundLeft(node, parent, gparent, root, z, t, s);
      } else {
        node, z, t := InsertRoundRight(node, parent, gparent, root, z, t, s);
      }
      Look(z, t, root, s);
      parent := node.parent;
    }
    ghost var whole := Plug(z, t);
    Whole(z, t, Snapshot(s), root.node);
    PlugBalanced(z, t);
    PlugRedOk(z, t);
    PlugRoot(z, t);
    Look(Top, whole, root, s);
    var top: RbNode := root.node;
    SetColor(top, true, root, Top, whole, s);
    tree := whole.(black := true);
  }
  // ----- Removal -------------------------------------------------------------------------------

  ghost function Blacken(t: Tree): Tree {
    if t.Nil? then t else t.(black := true)
  }

  /** The focus is one black level short of what its path expects. */
  ghost predicate Short(z: Path, t: Tree) {
    && Balanced(t) && RedOk(Blacken(t))
    && PathBalanced(z, BlackHeight(t) + 1) && PathRedOk(z, true) && PathRootBlack(z)
  }

  /** A short focus always has a sibling. */
  lemma Sibling(z: Path, t: Tree)
    requires Short(z, t) && !z.Top?
    ensures z.other.Bin? && (!z.other.black ==> z.black && z.other.left.Bin? && z.other.right.Bin?)
  {
    assert Balanced(z.other);
  }

  /** A focus that is red, or at the root, is repaired by painting it black. */
  lemma ShortDone(z: Path, t: Tree)
    requires Short(z, t) && (z.Top? || !IsBlack(t))
    ensures RedBlack(Plug(z, Blacken(t)))
  {
    PlugBalanced(z, Blacken(t));
    PlugRedOk(z, Blacken(t));
    PlugRoot(z, Blacken(t));
  }

  /** A red sibling: after the turn the focus is as short as before, below a red parent with a black sibling. */
  lemma RedSiblingLeft(z: Path, t: Tree, p: RbNode, o: Tree)
    requires o.Bin? && !o.black && Short(InLeft(z, p, true, o), t)
    ensures Short(InLeft(InLeft(z, o.node, true, o.right), p, false, o.left), t) && o.left.Bin? && o.left.black
  {
    assert Balanced(o);
  }

  /** A black sibling with black children gives its level away. */
  lemma PushUpLeft(z: Path, t: Tree, p: RbNode, c: bool, o: Tree)
    requires o.Bin? && o.black && IsBlack(o.left) && IsBlack(o.right) && IsBlack(t)
    requires Short(InLeft(z, p, c, o), t)
    ensures Short(z, Bin(t, p, c, o.(black := false)))
  {
    assert Balanced(o.(black := false));
    if !c {
      assert PathRedOk(z, false);
    }
  }

  /** A black sibling whose red child is on the near side is turned first. */
  lemma NearChildLeft(z: Path, t: Tree, p: RbNode, c: bool, o: Tree)
    requires o.Bin? && o.black && o.left.Bin? && !o.left.black && IsBlack(o.right)
    requires Short(InLeft(z, p, c, o), t)
    ensures var o' := RotR(Bin(o.left.(black := true), o.node, false, o.right));
      Short(InLeft(z, p, c, o'), t) && o'.black && o'.right.Bin? && !o'.right.black
  {
    assert Balanced(o) && Balanced(o.left) && RedOk(o) && RedOk(o.left);
    var n := Bin(o.left.right, o.node, false, o.right);
    assert Balanced(n) && BlackHeight(n) == BlackHeight(o.right);
  }

  /** A black sibling with a red far child: one turn restores the missing level. */
  lemma FarChildLeft(z: Path, t: Tree, p: RbNode, c: bool, o: Tree)
    requires o.Bin? && o.black && o.right.Bin? && !o.right.black && IsBlack(t)
    requires Short(InLeft(z, p, c, o), t)
    ensures RedBlack(Plug(z, Bin(Bin(t, p, true, o.left), o.node, c, o.right.(black := true))))
  {
    var r := Bin(Bin(t, p, true, o.left), o.node, c, o.right.(black := true));
    assert Balanced(o) && Balanced(o.right) && RedOk(o) && RedOk(o.right);
    assert Balanced(o.right.(black := true));
    assert Balanced(Bin(t, p, true, o.left));
    assert RedOk(o.right.(black := true));
    PlugBalanced(z, r);
    PlugRedOk(z, r);
    PlugRoot(z, r);
  }

  lemma RedSiblingRight(z: Path, t: Tree, p: RbNode, o: Tree)
    requires o.Bin? && !o.black && Short(InRight(o, p, true, z), t)
    ensures Short(InRight(o.right, p, false, InRight(o.left, o.node, true, z)), t) && o.right.Bin? && o.right.black
  {
    assert Balanced(o);
  }

  lemma PushUpRight(z: Path, t: Tree, p: RbNode, c: bool, o: Tree)
    requires o.Bin? && o.black && IsBlack(o.right) && IsBlack(o.left) && IsBlack(t)
    requires Short(InRight(o, p, c, z), t)
    ensures Short(z, Bin(o.(black := false), p, c, t))
  {
    assert Balanced(o.(black := false));
    if !c {
      assert PathRedOk(z, false);
    }
  }

  lemma NearChildRight(z: Path, t: Tree, p: RbNode, c: bool, o: Tree)
    requires o.Bin? && o.black && o.right.Bin? && !o.right.black && IsBlack(o.left)
    requires Short(InRight(o, p, c, z), t)
    ensures var o' := RotL(Bin(o.left, o.node, false, o.right.(black := true)));
      Short(InRight(o', p, c, z), t) && o'.black && o'.left.Bin? && !o'.left.black
  {
    assert Balanced(o) && Balanced(o.right) && RedOk(o) && RedOk(o.right);
    var n := Bin(o.left, o.node, false, o.right.left);
    assert Balanced(n) && BlackHeight(n) == BlackHeight(o.left);
  }

  lemma FarChildRight(z: Path, t: Tree, p: RbNode, c: bool, o: Tree)
    requires o.Bin? && o.black && o.left.Bin? && !o.left.black && IsBlack(t)
    requires Short(InRight(o, p, c, z), t)
    ensures RedBlack(Plug(z, Bin(o.left.(black := true), o.node, c, Bin(o.right, p, true, t))))
  {
    var r := Bin(o.left.(black := true), o.node, c, Bin(o.right, p, true, t));
    assert Balanced(o) && Balanced(o.left) && RedOk(o) && RedOk(o.left);
    assert Balanced(o.left.(black := true));
    assert Balanced(Bin(o.right, p, true, t));
    assert RedOk(o.left.(black := true));
    PlugBalanced(z, r);
    PlugRedOk(z, r);
    PlugRoot(z, r);
  }

  ghost function Rank(z: Path, t: Tree): nat {
    PathLen(z) + if IsBlack(t) then 1 else 0
  }

  /** The red-sibling case of a removal round. */
  method TurnSiblingLeft(parent: RbNode, other: RbNode, root: RbRoot,
                         ghost z: Path, ghost t: Tree, ghost s: set<RbNode>)
    returns (ghost z': Path)
    requires Rep(z, t, root, s) && Short(z, t) && z.InLeft? && z.node == parent
    requires RootOf(z.other) == other && !z.other.black
    modifies root, s
    ensures Rep(z', t, root, s) && Short(z', t) && z'.InLeft? && z'.node == parent
    ensures z'.other.Bin? && z'.other.black && !z'.black && PathLen(z'.up) == PathLen(z)
    ensures InOrder(Plug(z', t)) == InOrder(Plug(z, t))
  {
    hide Holds;
    Sibling(z, t);
    Up(z, t, root, s);
    ghost var zz, p := z.up, Attach(z, t);
    SetRightColor(other, true, root, zz, p, s);
    ghost var p1 := p.(right := p.right.(black := true));
    SetColor(parent, false, root, zz, p1, s);
    ghost var p2 := p1.(black := false);
    RotateLeft(parent, root, zz, p2, s);
    ghost var r := RotL(p2);
    DownLeft(zz, r, root, s);
    DownLeft(LeftHole(zz, r), r.left, root, s);
    z' := LeftHole(LeftHole(zz, r), r.left);
    RedSiblingLeft(zz, t, parent, z.other);
    RotLOrder(p2);
    SameOrder(zz, p, r);
  }

  /** The closing turn of a removal: the sibling's far child is red. */
  method CloseLeft(parent: RbNode, other: RbNode, root: RbRoot, ghost z: Path, ghost t: Tree, ghost s: set<RbNode>)
    returns (ghost tree: Tree)
    requires Rep(z, t, root, s) && Short(z, t) && IsBlack(t) && z.InLeft? && z.node == parent
    requires RootOf(z.other) == other && z.other.black && z.other.right.Bin? && !z.other.right.black
    modifies root, s
    ensures Rep(Top, tree, root, s) && RedBlack(tree) && InOrder(tree) == InOrder(Plug(z, t))
  {
    hide Holds;
    Up(z, t, root, s);
    ghost var zz, p := z.up, Attach(z, t);
    Look(zz, p, root, s);
    SetRightColor(other, parent.black, root, zz, p, s);
    ghost var p1 := p.(right := p.right.(black := p.black));
    SetColor(parent, true, root, zz, p1, s);
    ghost var p2 := p1.(black := true);
    DownRight(zz, p2, root, s);
    Look(RightHole(zz, p2), p2.right, root, s);
    if other.right != null {
      SetRightColor(other.right, true, root, RightHole(zz, p2), p2.right, s);
    }
    ghost var o3 := p2.right.(right := p2.right.right.(black := true));
    Up(RightHole(zz, p2), o3, root, s);
    ghost var p3 := p2.(right := o3);
    RotateLeft(parent, root, zz, p3, s);
    ghost var r := RotL(p3);
    FarChildLeft(zz, t, parent, z.black, z.other);
    assert InOrder(o3.right) == InOrder(z.other.right);
    assert InOrder(o3) == InOrder(z.other);
    RotLOrder(p3);
    SameOrder(zz, p, r);
    Whole(zz, r, Snapshot(s), root.node);
    tree := Plug(zz, r);
  }

  /** Brings the sibling's red child to the far side, then closes. */
  method NearThenCloseLeft(parent: RbNode, other0: RbNode, root: RbRoot,
                           ghost z: Path, ghost t: Tree, ghost s: set<RbNode>)
    returns (ghost tree: Tree)
    requires Rep(z, t, root, s) && Short(z, t) && IsBlack(t) && z.InLeft? && z.node == parent
    requires RootOf(z.other) == other0 && z.other.black && !(IsBlack(z.other.left) && IsBlack(z.other.right))
    modifies root, s
    ensures Rep(Top, tree, root, s) && RedBlack(tree) && InOrder(tree) == InOrder(Plug(z, t))
  {
    hide Holds;
    var other := other0;
    Up(z, t, root, s);
    ghost var zz, p := z.up, Attach(z, t);
    DownRight(zz, p, root, s);
    ghost var zo, o, z' := RightHole(zz, p), z.other, z;
    Look(zo, o, root, s);
    if other.right == null || other.right.black {
      var inner := other.left;
      if inner != null {
        SetLeftColor(inner, true, root, zo, o, s);
      }
      ghost var o1 := o.(left := o.left.(black := true));
      SetColor(other, false, root, zo, o1, s);
      ghost var o2 := o1.(black := false);
      RotateRight(other, root, zo, o2, s);
      ghost var o3 := RotR(o2);
      NearChildLeft(zz, t, parent, z.black, o);
      assert InOrder(o2.left) == InOrder(o.left);
      RotROrder(o2);
      Up(zo, o3, root, s);
      ghost var p' := p.(right := o3);
      Look(zz, p', root, s);
      other := parent.right;
      DownLeft(zz, p', root, s);
      z' := LeftHole(zz, p');
      SameOrder(zz, p, p');
    }
    tree := CloseLeft(parent, other, root, z', t, s);
  }

  /** One round of the removal loop when the short node is a left child. */
  method EraseRoundLeft(node0: RbNode?, parent0: RbNode, root: RbRoot,
                        ghost z0: Path, ghost t: Tree, ghost s: set<RbNode>)
    returns (done: bool, node: RbNode?, parent: RbNode?, ghost z': Path, ghost t': Tree)
    requires Rep(z0, t, root, s) && Short(z0, t) && IsBlack(t) && z0.InLeft? && z0.node == parent0
    requires node0 == RootOf(t)
    modifies root, s
    ensures Rep(z', t', root, s) && node == RootOf(t') && InOrder(Plug(z', t')) == InOrder(Plug(z0, t))
    ensures done ==> z'.Top? && RedBlack(t')
    ensures !done ==> Short(z', t') && parent == ParentOf(z') && Rank(z', t') < Rank(z0, t)
  {
    hide Holds;
    ghost var z := z0;
    Sibling(z, t);
    Up(z, t, root, s);
    Look(z.up, Attach(z, t), root, s);
    var other: RbNode := parent0.right;
    if !other.black {
      z := TurnSiblingLeft(parent0, other, root, z, t, s);
      Up(z, t, root, s);
      Look(z.up, Attach(z, t), root, s);
      other := parent0.right;
    }
    DownRight(z.up, Attach(z, t), root, s);
    Look(RightHole(z.up, Attach(z, t)), z.other, root, s);
    if (other.left == null || other.left.black) && (other.right == null || other.right.black) {
      SetRightColor(other, false, root, z.up, Attach(z, t), s);
      PushUpLeft(z.up, t, parent0, z.black, z.other);
      z', t' := z.up, Bin(t, parent0, z.black, z.other.(black := false));
      SameOrder(z', Attach(z, t), t');
      Look(z', t', root, s);
      done, node := false, parent0;
      parent := parent0.parent;
    } else {
      t' := NearThenCloseLeft(parent0, other, root, z, t, s);
      Look(Top, t', root, s);
      done, node, parent, z' := true, root.node, null, Top;
    }
  }

  method TurnSiblingRight(parent: RbNode, other: RbNode, root: RbRoot,
                         ghost z: Path, ghost t: Tree, ghost s: set<RbNode>)
    returns (ghost z': Path)
    requires Rep(z, t, root, s) && Short(z, t) && z.InRight? && z.node == parent
    requires RootOf(z.other) == other && !z.other.black
    modifies root, s
    ensures Rep(z', t, root, s) && Short(z', t) && z'.InRight? && z'.node == parent
    ensures z'.other.Bin? && z'.other.black && !z'.black && PathLen(z'.up) == PathLen(z)
    ensures InOrder(Plug(z', t)) == InOrder(Plug(z, t))
  {
    hide Holds;
    Sibling(z, t);
    Up(z, t, root, s);
    ghost var zz, p := z.up, Attach(z, t);
    SetLeftColor(other, true, root, zz, p, s);
    ghost var p1 := p.(left := p.left.(black := true));
    SetColor(parent, false, root, zz, p1, s);
    ghost var p2 := p1.(black := false);
    RotateRight(parent, root, zz, p2, s);
    ghost var r := RotR(p2);
    DownRight(zz, r, root, s);
    DownRight(RightHole(zz, r), r.right, root, s);
    z' := RightHole(RightHole(zz, r), r.right);
    RedSiblingRight(zz, t, parent, z.other);
    RotROrder(p2);
    SameOrder(zz, p, r);
  }

  method CloseRight(parent: RbNode, other: RbNode, root: RbRoot, ghost z: Path, ghost t: Tree, ghost s: set<RbNode>)
    returns (ghost tree: Tree)
    requires Rep(z, t, root, s) && Short(z, t) && IsBlack(t) && z.InRight? && z.node == parent
    requires RootOf(z.other) == other && z.other.black && z.other.left.Bin? && !z.other.left.black
    modifies root, s
    ensures Rep(Top, tree, root, s) && RedBlack(tree) && InOrder(tree) == InOrder(Plug(z, t))
  {
    hide Holds;
    Up(z, t, root, s);
    ghost var zz, p := z.up, Attach(z, t);
    Look(zz, p, root, s);
    SetLeftColor(other, parent.black, root, zz, p, s);
    ghost var p1 := p.(left := p.left.(black := p.black));
    SetColor(parent, true, root, zz, p1, s);
    ghost var p2 := p1.(black := true);
    DownLeft(zz, p2, root, s);
    Look(LeftHole(zz, p2), p2.left, root, s);
    if other.left != null {
      SetLeftColor(other.left, true, root, LeftHole(zz, p2), p2.left, s);
    }
    ghost var o3 := p2.left.(left := p2.left.left.(black := true));
    Up(LeftHole(zz, p2), o3, root, s);
    ghost var p3 := p2.(left := o3);
    RotateRight(parent, root, zz, p3, s);
    ghost var r := RotR(p3);
    FarChildRight(zz, t, parent, z.black, z.other);
    assert InOrder(o3.left) == InOrder(z.other.left);
    assert InOrder(o3) == InOrder(z.other);
    RotROrder(p3);
    SameOrder(zz, p, r);
    Whole(zz, r, Snapshot(s), root.node);
    tree := Plug(zz, r);
  }

  method NearThenCloseRight(parent: RbNode, other0: RbNode, root: RbRoot,
                           ghost z: Path, ghost t: Tree, ghost s: set<RbNode>)
    returns (ghost tree: Tree)
    requires Rep(z, t, root, s) && Short(z, t) && IsBlack(t) && z.InRight? && z.node == parent
    requires RootOf(z.other) == other0 && z.other.black && !(IsBlack(z.other.right) && IsBlack(z.other.left))
    modifies root, s
    ensures Rep(Top, tree, root, s) && RedBlack(tree) && InOrder(tree) == InOrder(Plug(z, t))
  {
    hide Holds;
    var other := other0;
    Up(z, t, root, s);
    ghost var zz, p := z.up, Attach(z, t);
    DownLeft(zz, p, root, s);
    ghost var zo, o, z' := LeftHole(zz, p), z.other, z;
    Look(zo, o, root, s);
    if other.left == null || other.left.black {
      var inner := other.right;
      if inner != null {
        SetRightColor(inner, true, root, zo, o, s);
      }
      ghost var o1 := o.(right := o.right.(black := true));
      SetColor(other, false, root, zo, o1, s);
      ghost var o2 := o1.(black := false);
      RotateLeft(other, root, zo, o2, s);
      ghost var o3 := RotL(o2);
      NearChildRight(zz, t, parent, z.black, o);
      assert InOrder(o2.right) == InOrder(o.right);
      RotLOrder(o2);
      Up(zo, o3, root, s);
      ghost var p' := p.(left := o3);
      Look(zz, p', root, s);
      other := parent.left;
      DownRight(zz, p', root, s);
      z' := RightHole(zz, p');
      SameOrder(zz, p, p');
    }
    tree := CloseRight(parent, other, root, z', t, s);
  }

  method EraseRoundRight(node0: RbNode?, parent0: RbNode, root: RbRoot,
                        ghost z0: Path, ghost t: Tree, ghost s: set<RbNode>)
    returns (done: bool, node: RbNode?, parent: RbNode?, ghost z': Path, ghost t': Tree)
    requires Rep(z0, t, root, s) && Short(z0, t) && IsBlack(t) && z0.InRight? && z0.node == parent0
    requires node0 == RootOf(t)
    modifies root, s
    ensures Rep(z', t', root, s) && node == RootOf(t') && InOrder(Plug(z', t')) == InOrder(Plug(z0, t))
    ensures done ==> z'.Top? && RedBlack(t')
    ensures !done ==> Short(z', t') && parent == ParentOf(z') && Rank(z', t') < Rank(z0, t)
  {
    hide Holds;
    ghost var z := z0;
    Sibling(z, t);
    Up(z, t, root, s);
    Look(z.up, Attach(z, t), root, s);
    var other: RbNode := parent0.left;
    if !other.black {
      z := TurnSiblingRight(parent0, other, root, z, t, s);
      Up(z, t, root, s);
      Look(z.up, Attach(z, t), root, s);
      other := parent0.left;
    }
    DownLeft(z.up, Attach(z, t), root, s);
    Look(LeftHole(z.up, Attach(z, t)), z.other, root, s);
    if (other.right == null || other.right.black) && (other.left == null || other.left.black) {
      SetLeftColor(other, false, root, z.up, Attach(z, t), s);
      PushUpRight(z.up, t, parent0, z.black, z.other);
      z', t' := z.up, Bin(z.other.(black := false), parent0, z.black, t);
      SameOrder(z', Attach(z, t), t');
      Look(z', t', root, s);
      done, node := false, parent0;
      parent := parent0.parent;
    } else {
      t' := NearThenCloseRight(parent0, other, root, z, t, s);
      Look(Top, t', root, s);
      done, node, parent, z' := true, root.node, null, Top;
    }
  }

  /** A position is the root exactly when the root pointer holds its node. */
  lemma {:induction false} TopOfPath(z: Path, hole: RbNode?, m: Cells, top: RbNode?)
    requires PathLinks(z, hole, m, top) && !z.Top?
    ensures top != null && top in PathNodes(z)
    decreases z
  {
    if !z.up.Top? {
      TopOfPath(z.up, z.node, m, top);
    }
  }

  lemma AtRoot(z: Path, t: Tree, root: RbRoot, s: set<RbNode>)
    requires Rep(z, t, root, s)
    ensures root.node == RootOf(t) <==> z.Top?
  {
    if !z.Top? {
      TopOfPath(z, RootOf(t), Snapshot(s), root.node);
    }
  }

  /** Restores the black level that the position `z0` is short of. */
  method EraseColor(node0: RbNode?, parent0: RbNode?, root: RbRoot,
                    ghost z0: Path, ghost t0: Tree, ghost s: set<RbNode>)
    returns (ghost tree: Tree)
    requires Rep(z0, t0, root, s) && Short(z0, t0) && node0 == RootOf(t0) && parent0 == ParentOf(z0)
    modifies root, s
    ensures Rep(Top, tree, root, s) && RedBlack(tree) && InOrder(tree) == InOrder(Plug(z0, t0))
  {
    hide Holds;
    var node, parent := node0, parent0;
    var finished := false;
    ghost var z, t := z0, t0;
    Look(z, t, root, s);
    AtRoot(z, t, root, s);
    while (node == null || node.black) && node != root.node
      invariant Rep(z, t, root, s) && node == RootOf(t) && (node != null ==> node.black == t.black)
      invariant InOrder(Plug(z, t)) == InOrder(Plug(z0, t0))
      invariant !finished && Short(z, t) && parent == ParentOf(z) && (root.node == RootOf(t) <==> z.Top?)
      decreases Rank(z, t)
    {
      Sibling(z, t);
      Look(z, t, root, s);
      if parent.left == node {
        finished, node, parent, z, t := EraseRoundLeft(node, parent, root, z, t, s);
      } else {
        finished, node, parent, z, t := EraseRoundRight(node, parent, root, z, t, s);
      }
      if finished {
        break;
      }
      Look(z, t, root, s);
      AtRoot(z, t, root, s);
    }
    if !finished {
      ShortDone(z, t);
      SameOrder(z, t, Blacken(t));
    }
    if node != null {
      SetColor(node, true, root, z, t, s);
    }
    tree := Plug(z, Blacken(t));
    Whole(z, Blacken(t), Snapshot(s), root.node);
  }

  // ----- Taking a node out ---------------------------------------------------------------------

  lemma {:induction false} PlugAppend(p: Path, q: Path, t: Tree)
    ensures Plug(Append(p, q), t) == Plug(q, Plug(p, t))
    decreases p
  {
    if !p.Top? {
      PlugAppend(p.up, q, Attach(p, t));
    }
  }

  /** Follows `p` down from the position `q`. */
  lemma {:induction false} Dive(p: Path, q: Path, t: Tree, m: Cells, top: RbNode?)
    requires Holds(q, Plug(p, t), m, top)
    ensures Holds(Append(p, q), t, m, top)
    decreases p
  {
    if !p.Top? {
      Dive(p.up, q, Attach(p, t), m, top);
      if p.InLeft? {
        DescendLeft(Append(p.up, q), Attach(p, t), m, top);
      } else {
        DescendRight(Append(p.up, q), Attach(p, t), m, top);
      }
    }
  }

  lemma {:induction false} Climb(p: Path, q: Path, t: Tree, m: Cells, top: RbNode?)
    requires Holds(Append(p, q), t, m, top)
    ensures Holds(q, Plug(p, t), m, top)
    decreases p
  {
    if !p.Top? {
      Ascend(Append(p, q), t, m, top);
      Climb(p.up, q, Attach(p, t), m, top);
    }
  }

  /** Every node of a tree has a position. */
  lemma {:induction false} Locate(t: Tree, n: RbNode) returns (p: Path, u: Tree)
    requires n in Nodes(t)
    ensures Plug(p, u) == t && u.Bin? && u.node == n
  {
    if n == t.node {
      p, u := Top, t;
    } else if n in Nodes(t.left) {
      p, u := Locate(t.left, n);
      PlugAppend(p, LeftHole(Top, t), u);
      p := Append(p, LeftHole(Top, t));
    } else {
      p, u := Locate(t.right, n);
      PlugAppend(p, RightHole(Top, t), u);
      p := Append(p, RightHole(Top, t));
    }
  }

  /** The child that takes the place of a node with at most one child. */
  ghost function OnlyChild(t: Tree): Tree
    requires t.Bin?
  {
    if t.left.Nil? then t.right else t.left
  }

  lemma Unlinked(z: Path, t: Tree, m: Cells, top: RbNode?, m': Cells, top': RbNode?)
    requires Holds(z, t, m, top) && t.Bin? && (t.left.Nil? || t.right.Nil?)
    requires m'.Keys == m.Keys - {t.node}
    requires forall n | n in m' && n !in Tops(z, OnlyChild(t)) :: m'[n] == m[n]
    requires var c := OnlyChild(t);
      c.Bin? ==> c.node in m && c.node in m' && m'[c.node] == m[c.node].(parent := ParentOf(z))
    requires Rehung(z, RootOf(OnlyChild(t)), m, m', top, top')
    ensures Holds(z, OnlyChild(t), m', top')
  {
    Reparent(OnlyChild(t), t.node, ParentOf(z), m, m');
    Rehang(z, t.node, RootOf(OnlyChild(t)), m, m', top, top');
  }

  lemma Replaced(z: Path, t: Tree, y: RbNode, m: Cells, top: RbNode?, m': Cells, top': RbNode?)
    requires Holds(z, t, m, top) && t.Bin? && y !in m
    requires m'.Keys == m.Keys - {t.node} + {y} && m'[y] == m[t.node]
    requires forall n | n in m && n != t.node && n !in Tops(z, t.left) + Tops(Top, t.right) :: m'[n] == m[n]
    requires t.left.Bin? ==> t.left.node in m && t.left.node in m' && m'[t.left.node] == m[t.left.node].(parent := y)
    requires t.right.Bin? ==> t.right.node in m && t.right.node in m' && m'[t.right.node] == m[t.right.node].(parent := y)
    requires Rehung(z, y, m, m', top, top')
    ensures Holds(z, t.(node := y), m', top')
  {
    var u := t.(node := y);
    assert Nodes(u) == Nodes(t) - {t.node} + {y};
    assert Distinct(u) && PathNodes(z) !! Nodes(u);
    assert PathNodes(z) + Nodes(u) == m'.Keys;
    assert Links(u, ParentOf(z), m') by {
      Reparent(t.left, t.node, y, m, m');
      Reparent(t.right, t.node, y, m, m');
    }
    assert PathLinks(z, y, m', top') by {
      Rehang(z, t.node, y, m, m', top, top');
    }
  }

  /** The assignments by which `child` takes the place of `node` under its parent. */
  method Bypass(node: RbNode, child: RbNode?, root: RbRoot, ghost hangsLeft: bool)
    requires var p := node.parent;
      && node != child && p != node && (child != null ==> child != p)
      && (p != null ==> if hangsLeft then p.left == node else p.left != node)
    modifies root, Opt(child), Opt(node.parent)
    ensures var p := old(node.parent);
      && (child != null ==> child.parent == p && unchanged(child`left, child`right, child`black))
      && (if p == null then root.node == child else
           && root.node == old(root.node) && unchanged(p`parent, p`black)
           && if hangsLeft then p.left == child && unchanged(p`right) else p.right == child && unchanged(p`left))
  {
    var parent := node.parent;
    if child != null {
      child.parent := parent;
    }
    if parent != null {
      if parent.left == node {
        parent.left := child;
      } else {
        parent.right := child;
      }
    } else {
      root.node := child;
    }
  }

  /** Unlinks a node with at most one child. */
  method UnlinkNode(node: RbNode, child: RbNode?, root: RbRoot, ghost z: Path, ghost t: Tree, ghost s: set<RbNode>)
    returns (parent: RbNode?, black: bool)
    requires Rep(z, t, root, s) && t.Bin? && t.node == node && (t.left.Nil? || t.right.Nil?)
    requires child == RootOf(OnlyChild(t))
    modifies root, s
    ensures Rep(z, OnlyChild(t), root, s - {node}) && parent == ParentOf(z) && black == t.black
  {
    ghost var m, top := Snapshot(s), root.node;
    assert Links(OnlyChild(t), node, m);
    parent, black := node.parent, node.black;
    Bypass(node, child, root, z.InLeft?);
    Unlinked(z, t, m, top, Snapshot(s - {node}), root.node);
  }

  /** Unlinks the in-order successor of `old`, which sits leftmost in its right subtree. */
  method UnlinkSuccessor(old_: RbNode, node: RbNode, root: RbRoot, ghost z: Path, ghost t: Tree, ghost s: set<RbNode>)
    returns (child: RbNode?, parent: RbNode, black: bool)
    requires Rep(z, t, root, s) && t.Bin? && t.node == node && t.left.Nil?
    requires !z.Top? && (if z.node == old_ then z.InRight? else z.InLeft?)
    modifies root, s
    ensures Rep(z, t.right, root, s - {node}) && child == RootOf(t.right) && parent == z.node && black == t.black
  {
    ghost var m, top := Snapshot(s), root.node;
    assert Links(t.right, node, m);
    child := node.right;
    parent := node.parent;
    black := node.black;
    if child != null {
      child.parent := parent;
    }
    if parent == old_ {
      parent.right := child;
    } else {
      parent.left := child;
    }
    Unlinked(z, t, m, top, Snapshot(s - {node}), root.node);
  }

  /** The assignments by which `node` takes over the links and colour of `old_`. */
  method CopyLinks(old_: RbNode, node: RbNode, root: RbRoot, ghost hangsLeft: bool)
    requires var l, r, p := old_.left, old_.right, old_.parent;
      && node != old_ && l != null && l != old_ && r != old_ && p != old_ && l != r && l != p && node !in {l, r, p}
      && (r != null ==> r != p)
      && (p != null ==> if hangsLeft then p.left == old_ else p.left != old_)
    modifies root, node, Opt(old_.left), Opt(old_.right), Opt(old_.parent)
    ensures var l, r, p := old(old_.left), old(old_.right), old(old_.parent);
      && node.left == l && node.right == r && node.parent == p && node.black == old(old_.black)
      && l.parent == node && unchanged(l`left, l`right, l`black)
      && (r != null ==> r.parent == node && unchanged(r`left, r`right, r`black))
      && (if p == null then root.node == node else
           && root.node == old(root.node) && unchanged(p`parent, p`black)
           && if hangsLeft then p.left == node && unchanged(p`right) else p.right == node && unchanged(p`left))
  {
    node.parent, node.black := old_.parent, old_.black;
    node.right := old_.right;
    node.left := old_.left;
    if old_.parent != null {
      if old_.parent.left == old_ {
        old_.parent.left := node;
      } else {
        old_.parent.right := node;
      }
    } else {
      root.node := node;
    }
    old_.left.parent := node;
    if old_.right != null {
      old_.right.parent := node;
    }
  }

  method TakePlace(old_: RbNode, node: RbNode, root: RbRoot, ghost z: Path, ghost t: Tree, ghost s: set<RbNode>)
    requires Rep(z, t, root, s) && t.Bin? && t.node == old_ && t.left.Bin? && node !in s
    modifies root, s, node
    ensures Rep(z, t.(node := node), root, s - {old_} + {node})
  {
    ghost var m, top := Snapshot(s), root.node;
    assert Links(t.left, old_, m) && Links(t.right, old_, m);
    CopyLinks(old_, node, root, z.InLeft?);
    Replaced(z, t, node, m, top, Snapshot(s - {old_} + {node}), root.node);
  }

  ghost function Renamed(q: Path, y: RbNode): Path
    requires !q.Top?
  {
    match q
    case InLeft(up, _, b, o) => InLeft(up, y, b, o)
    case InRight(o, _, b, up) => InRight(o, y, b, up)
  }

  lemma {:induction false} OtherName(p: Path, q: Path, y: RbNode, h: nat, b: bool)
    requires !q.Top?
    ensures PathBalanced(Append(p, Renamed(q, y)), h) <==> PathBalanced(Append(p, q), h)
    ensures PathRedOk(Append(p, Renamed(q, y)), b) <==> PathRedOk(Append(p, q), b)
    ensures PathRootBlack(Append(p, Renamed(q, y))) <==> PathRootBlack(Append(p, q))
    ensures !Append(p, q).Top? && !Append(p, Renamed(q, y)).Top?
    decreases p
  {
    if !p.Top? {
      OtherName(p.up, q, y, h + if p.black then 1 else 0, p.black);
    }
  }

  /** What a valid tree looks like from one of its positions. */
  ghost predicate Fits(z: Path, t: Tree) {
    && Balanced(t) && PathBalanced(z, BlackHeight(t)) && RedOk(t) && PathRedOk(z, IsBlack(t))
    && if z.Top? then IsBlack(t) else PathRootBlack(z)
  }

  lemma FitsWhole(z: Path, t: Tree)
    ensures Fits(z, t) <==> RedBlack(Plug(z, t))
  {
    PlugBalanced(z, t);
    PlugRedOk(z, t);
    PlugRoot(z, t);
  }

  /** Unlinking a red node keeps the tree valid; unlinking a black one leaves its place one level short. */
  lemma AfterUnlink(z: Path, t: Tree)
    requires Fits(z, t) && t.Bin? && (t.left.Nil? || t.right.Nil?)
    ensures if t.black then Short(z, OnlyChild(t)) else Fits(z, OnlyChild(t))
  {
    assert RedOk(OnlyChild(t)) && RedOk(Blacken(OnlyChild(t)));
  }

  ghost predicate AllLeft(p: Path) {
    !p.Top? ==> p.InLeft? && AllLeft(p.up)
  }

  lemma {:induction false} AllLeftBefore(p: Path)
    requires AllLeft(p)
    ensures Before(p) == []
  {
    if !p.Top? {
      AllLeftBefore(p.up);
    }
  }

  /** `q` without its k-th element, which is `n`. */
  ghost predicate Removed(q: seq<RbNode>, n: RbNode, q': seq<RbNode>) {
    exists k :: 0 <= k < |q| && q[k] == n && q' == q[..k] + q[k + 1..]
  }

  lemma RemovedAt(a: seq<RbNode>, n: RbNode, b: seq<RbNode>)
    ensures Removed(a + [n] + b, n, a + b)
  {
    var q := a + [n] + b;
    assert q[|a|] == n && q[..|a|] == a && q[|a| + 1..] == b;
  }

  lemma RemovedInside(a: seq<RbNode>, l: seq<RbNode>, n: RbNode, r: seq<RbNode>, b: seq<RbNode>, q: seq<RbNode>)
    requires q == l + r
    ensures Removed(a + (l + [n] + r) + b, n, a + q + b)
  {
    RemovedAt(a + l, n, r + b);
    assert (a + l) + [n] + (r + b) == a + (l + [n] + r) + b;
    assert (a + l) + (r + b) == a + q + b;
  }

  lemma Shift(n: RbNode, c: seq<RbNode>, a: seq<RbNode>)
    ensures [] + ([] + [n] + c) + a == [n] + ([] + c + a)
  {
  }

  /** The leftmost node comes first. */
  lemma FirstOut(p: Path, u: Tree)
    requires AllLeft(p) && u.Bin? && u.left.Nil?
    ensures InOrder(Plug(p, u)) == [u.node] + InOrder(Plug(p, u.right))
  {
    AllLeftBefore(p);
    PlugInOrder(p, u);
    PlugInOrder(p, u.right);
    Shift(u.node, InOrder(u.right), After(p));
  }

  /** Swapping a node with its successor and unlinking it removes exactly that node from the order. */
  lemma SpliceOrder(z: Path, t: Tree, p: Path, u: Tree)
    requires t.Bin? && t.right == Plug(p, u) && AllLeft(p) && u.Bin? && u.left.Nil?
    ensures Removed(InOrder(Plug(z, t)), t.node,
                    InOrder(Plug(z, Bin(t.left, u.node, t.black, Plug(p, u.right)))))
  {
    var t' := Bin(t.left, u.node, t.black, Plug(p, u.right));
    FirstOut(p, u);
    PlugInOrder(z, t);
    PlugInOrder(z, t');
    assert InOrder(t') == InOrder(t.left) + ([u.node] + InOrder(Plug(p, u.right)));
    RemovedInside(Before(z), InOrder(t.left), t.node, InOrder(t.right), After(z), InOrder(t'));
  }

  lemma UnlinkOrder(z: Path, t: Tree)
    requires t.Bin? && (t.left.Nil? || t.right.Nil?)
    ensures Removed(InOrder(Plug(z, t)), t.node, InOrder(Plug(z, OnlyChild(t))))
  {
    PlugInOrder(z, t);
    PlugInOrder(z, OnlyChild(t));
    RemovedInside(Before(z), InOrder(t.left), t.node, InOrder(t.right), After(z), InOrder(OnlyChild(t)));
  }

  /** Colours, heights and order after the successor `u.node` took the place of `t.node`. */
  lemma Spliced(z: Path, t: Tree, p: Path, u: Tree)
    requires t.Bin? && t.right == Plug(p, u) && AllLeft(p) && u.Bin? && u.left.Nil? && Fits(z, t)
    ensures var q := InRight(t.left, u.node, t.black, z);
      && (if u.black then Short(Append(p, q), u.right) else Fits(Append(p, q), u.right))
      && Removed(InOrder(Plug(z, t)), t.node, InOrder(Plug(Append(p, q), u.right)))
  {
    var q := RightHole(z, t);
    var q', h := Renamed(q, u.node), BlackHeight(u.right);
    PlugAppend(p, q, u);
    FitsWhole(z, t);
    FitsWhole(Append(p, q), u);
    AfterUnlink(Append(p, q), u);
    OtherName(p, q, u.node, h + 1, true);
    OtherName(p, q, u.node, h, IsBlack(u.right));
    PlugAppend(p, q', u.right);
    SpliceOrder(z, t, p, u);
  }

  lemma {:induction false} Outermost(p: Path, q: Path)
    requires !q.Top?
    ensures !Append(p, q).Top? && q.node in PathNodes(Append(p, q))
  {
    if !p.Top? {
      Outermost(p.up, q);
    }
  }

  /** The leftmost node below `old_` hangs from a left slot, unless `old_` itself is its parent. */
  lemma SuccessorSlot(p: Path, q: Path, u: Tree, root: RbRoot, s: set<RbNode>)
    requires Rep(Append(p, q), u, root, s) && AllLeft(p) && q.InRight?
    ensures var z := Append(p, q); !z.Top? && (if z.node == q.node then p.Top? else !p.Top? && z.InLeft?)
    ensures q.node in s && RootOf(u) != q.node
  {
    Outermost(p, q);
    if !p.Top? {
      Outermost(p.up, q);
    }
  }

  /** Moves from below `old_` to `old_` itself, lets `node` take its place, and comes back. */
  method Exchange(old_: RbNode, node: RbNode, root: RbRoot,
                  ghost z: Path, ghost t: Tree, ghost p: Path, ghost c: Tree, ghost s: set<RbNode>)
    requires t.Bin? && t.node == old_ && t.left.Bin? && node !in s
    requires Rep(Append(p, RightHole(z, t)), c, root, s)
    modifies root, s, node
    ensures Rep(Append(p, Renamed(RightHole(z, t), node)), c, root, s - {old_} + {node})
  {
    hide Holds;
    Climb(p, RightHole(z, t), c, Snapshot(s), root.node);
    Up(RightHole(z, t), Plug(p, c), root, s);
    ghost var t1, s' := t.(right := Plug(p, c)), s - {old_} + {node};
    TakePlace(old_, node, root, z, t1, s);
    DownRight(z, t1.(node := node), root, s');
    Dive(p, RightHole(z, t1.(node := node)), c, Snapshot(s'), root.node);
  }

  /** The part of a removal that exchanges `old_` with its successor. */
  method SwapWithSuccessor(old_: RbNode, root: RbRoot, ghost z: Path, ghost t: Tree, ghost s: set<RbNode>)
    returns (child: RbNode?, parent: RbNode, black: bool, ghost z': Path, ghost t': Tree)
    requires Rep(z, t, root, s) && t.Bin? && t.node == old_ && t.left.Bin? && t.right.Bin? && Fits(z, t)
    modifies root, s
    ensures Rep(z', t', root, s - {old_}) && child == RootOf(t') && ParentOf(z') == parent
    ensures if black then Short(z', t') else Fits(z', t')
    ensures Removed(InOrder(Plug(z, t)), old_, InOrder(Plug(z', t')))
  {
    hide Holds;
    hide Removed;
    DownRight(z, t, root, s);
    Look(z, t, root, s);
    ghost var q, p, u := RightHole(z, t), Top, t.right;
    var node: RbNode := old_.right;
    Look(q, u, root, s);
    var left := node.left;
    while left != null
      invariant Rep(Append(p, q), u, root, s) && AllLeft(p) && Plug(p, u) == t.right
      invariant u.Bin? && u.node == node && left == RootOf(u.left) && node in s
      decreases u
    {
      DownLeft(Append(p, q), u, root, s);
      p, u := LeftHole(p, u), u.left;
      node := left;
      Look(Append(p, q), u, root, s);
      left := node.left;
    }
    SuccessorSlot(p, q, u, root, s);
    child, parent, black := UnlinkSuccessor(old_, node, root, Append(p, q), u, s);
    if parent == old_ {
      parent := node;
    }
    Exchange(old_, node, root, z, t, p, u.right, s - {node});
    Spliced(z, t, p, u);
    z', t' := Append(p, Renamed(q, node)), u.right;
    assert s - {node} - {old_} + {node} == s - {old_};
  }

  /** Removes `node0` and rebalances. */
  method Erase(node0: RbNode, root: RbRoot, ghost t: Tree, ghost s: set<RbNode>) returns (ghost tree: Tree)
    requires Rep(Top, t, root, s) && RedBlack(t) && node0 in s
    modifies root, s
    ensures Rep(Top, tree, root, s - {node0}) && RedBlack(tree) && Removed(InOrder(t), node0, InOrder(tree))
  {
    hide Removed;
    ghost var z, u := Locate(t, node0);
    Dive(z, Top, u, Snapshot(s), root.node);
    AppendTop(z);
    hide Holds;
    FitsWhole(z, u);
    Look(z, u, root, s);
    var child, parent, black;
    ghost var z', u';
    if node0.left != null && node0.right != null {
      child, parent, black, z', u' := SwapWithSuccessor(node0, root, z, u, s);
    } else {
      child := if node0.left == null then node0.right else node0.left;
      AfterUnlink(z, u);
      UnlinkOrder(z, u);
      parent, black := UnlinkNode(node0, child, root, z, u, s);
      z', u' := z, OnlyChild(u);
    }
    if black {
      tree := EraseColor(child, parent, root, z', u', s - {node0});
    } else {
      FitsWhole(z', u');
      Whole(z', u', Snapshot(s - {node0}), root.node);
      tree := Plug(z', u');
    }
  }

  lemma {:induction false} AppendTop(p: Path)
    ensures Append(p, Top) == p
  {
    if !p.Top? {
      AppendTop(p.up);
    }
  }

  // ----- Linking a node in ---------------------------------------------------------------------

  lemma Linked(z: Path, y: RbNode, m: Cells, top: RbNode?, m': Cells, top': RbNode?)
    requires Holds(z, Nil, m, top) && y !in m
    requires m'.Keys == m.Keys + {y} && m'[y] == Cell(null, null, ParentOf(z), false)
    requires forall n | n in m && n !in Tops(z, Nil) :: m'[n] == m[n]
    requires Rehung(z, y, m, m', top, top')
    ensures Holds(z, Bin(Nil, y, false, Nil), m', top')
  {
    Rehang(z, null, y, m, m', top, top');
  }

  /** The three kinds of link a new node can be stored in. */
  datatype Slot = RootSlot | LeftSlot | RightSlot

  ghost function SlotOf(z: Path): Slot {
    match z
    case Top => RootSlot
    case InLeft(_, _, _, _) => LeftSlot
    case InRight(_, _, _, _) => RightSlot
  }

  /** Stores `node` as a red leaf in an empty slot. */
  method LinkNode(node: RbNode, parent: RbNode?, slot: Slot, root: RbRoot, ghost z: Path, ghost s: set<RbNode>)
    requires Rep(z, Nil, root, s) && node !in s && parent == ParentOf(z) && slot == SlotOf(z)
    modifies root, s, node
    ensures Rep(z, Bin(Nil, node, false, Nil), root, s + {node})
  {
    ghost var m, top := Snapshot(s), root.node;
    node.parent, node.black := parent, false;
    node.left, node.right := null, null;
    match slot {
      case RootSlot => root.node := node;
      case LeftSlot => parent.left := node;
      case RightSlot => parent.right := node;
    }
    Linked(z, node, m, top, Snapshot(s + {node}), root.node);
  }

  /** Linking a node in at the position `z` and rebalancing. */
  method Insert(node: RbNode, parent: RbNode?, slot: Slot, root: RbRoot,
                ghost z: Path, ghost t: Tree, ghost s: set<RbNode>) returns (ghost tree: Tree)
    requires Rep(z, Nil, root, s) && RedBlack(t) && t == Plug(z, Nil)
    requires node !in s && parent == ParentOf(z) && slot == SlotOf(z)
    modifies root, s, node
    ensures Rep(Top, tree, root, s + {node}) && RedBlack(tree)
    ensures InOrder(t) == Before(z) + After(z) && InOrder(tree) == Before(z) + [node] + After(z)
  {
    hide Holds;
    LinkNode(node, parent, slot, root, z, s);
    FitsWhole(z, Nil);
    ghost var leaf := Bin(Nil, node, false, Nil);
    assert RedFault(z, leaf);
    tree := InsertColor(node, root, z, leaf, s + {node});
    PlugInOrder(z, Nil);
    PlugInOrder(z, leaf);
  }

  /** Every place in the in-order sequence is the place of some empty slot. */
  lemma {:induction false} EverySlot(t: Tree, k: nat) returns (z: Path)
    requires k <= |InOrder(t)|
    ensures Plug(z, Nil) == t && |Before(z)| == k
  {
    if t.Nil? {
      z := Top;
    } else if k <= |InOrder(t.left)| {
      var p := EverySlot(t.left, k);
      z := Append(p, LeftHole(Top, t));
      PlugAppend(p, LeftHole(Top, t), Nil);
      BeforeAppend(p, LeftHole(Top, t));
    } else {
      var p := EverySlot(t.right, k - |InOrder(t.left)| - 1);
      z := Append(p, RightHole(Top, t));
      PlugAppend(p, RightHole(Top, t), Nil);
      BeforeAppend(p, RightHole(Top, t));
    }
  }

  lemma {:induction false} BeforeAppend(p: Path, q: Path)
    ensures Before(Append(p, q)) == Before(q) + Before(p)
    ensures After(Append(p, q)) == After(p) + After(q)
  {
    if !p.Top? {
      BeforeAppend(p.up, q);
    }
  }

  // ----- Trees ordered by interface index ------------------------------------------------------

  ghost predicate Sorted(q: seq<RbNode>) {
    forall i, j | 0 <= i < j < |q| :: q[i].key < q[j].key
  }

  ghost predicate Valid(t: Tree, root: RbRoot, s: set<RbNode>)
    reads root, s
  {
    Rep(Top, t, root, s) && RedBlack(t) && Sorted(InOrder(t))
  }

  lemma {:induction false} InOrderNodes(t: Tree, n: RbNode)
    ensures n in InOrder(t) <==> n in Nodes(t)
  {
    if t.Bin? {
      InOrderNodes(t.left, n);
      InOrderNodes(t.right, n);
    }
  }

  /** What the search has established at position `z`: `key` belongs between the two sides. */
  ghost predicate Between(z: Path, key: int) {
    (forall n | n in Before(z) :: n.key < key) && (forall n | n in After(z) :: key < n.key)
  }

  lemma SortedAround(q: seq<RbNode>, b: seq<RbNode>, l: seq<RbNode>, n: RbNode, r: seq<RbNode>, a: seq<RbNode>)
    requires q == b + (l + [n] + r) + a && Sorted(q)
    ensures (forall m | m in l :: m.key < n.key) && (forall m | m in r :: n.key < m.key)
  {
    var k := |b| + |l|;
    assert q[k] == n;
    forall m | m in l ensures m.key < n.key {
      var i :| 0 <= i < |l| && l[i] == m;
      assert q[|b| + i] == m;
    }
    forall m | m in r ensures n.key < m.key {
      var i :| 0 <= i < |r| && r[i] == m;
      assert q[k + 1 + i] == m;
    }
  }

  lemma StepAside(z: Path, t: Tree, key: int)
    requires t.Bin? && Sorted(InOrder(Plug(z, t))) && Between(z, key)
    ensures key < t.node.key ==> Between(LeftHole(z, t), key)
    ensures key > t.node.key ==> Between(RightHole(z, t), key)
  {
    PlugInOrder(z, t);
    SortedAround(InOrder(Plug(z, t)), Before(z), InOrder(t.left), t.node, InOrder(t.right), After(z));
  }

  /** Adds `node` unless its key is taken; a taken key leaves the tree as it is. */
  method Add(node: RbNode, root: RbRoot, ghost t: Tree, ghost s: set<RbNode>) returns (ok: bool, ghost tree: Tree)
    requires Valid(t, root, s) && node !in s
    modifies root, s, node
    ensures ok <==> forall n | n in s :: n.key != node.key
    ensures Valid(tree, root, if ok then s + {node} else s)
    ensures if ok then Removed(InOrder(tree), node, InOrder(t)) else tree == t
  {
    hide Holds;
    ghost var z, u := Top, t;
    var parent: RbNode?, slot := null, RootSlot;
    Look(z, u, root, s);
    var p := root.node;
    while p != null
      invariant Valid(t, root, s) && Rep(z, u, root, s) && Plug(z, u) == t && Between(z, node.key)
      invariant p == RootOf(u) && parent == ParentOf(z) && slot == SlotOf(z)
      decreases u
    {
      Look(z, u, root, s);
      StepAside(z, u, node.key);
      parent := p;
      if node.key < p.key {
        DownLeft(z, u, root, s);
        z, u, p, slot := LeftHole(z, u), u.left, p.left, LeftSlot;
      } else if node.key > p.key {
        DownRight(z, u, root, s);
        z, u, p, slot := RightHole(z, u), u.right, p.right, RightSlot;
      } else {
        return false, t;
      }
    }
    PlugInOrder(z, Nil);
    NoKey(z, t, node.key, root, s);
    tree := Insert(node, parent, slot, root, z, t, s);
    SortedBetween(Before(z), node, After(z));
    RemovedAt(Before(z), node, After(z));
    ok := true;
  }

  lemma NoKey(z: Path, t: Tree, key: int, root: RbRoot, s: set<RbNode>)
    requires Rep(Top, t, root, s) && t == Plug(z, Nil) && Between(z, key)
    ensures forall n | n in s :: n.key != key
  {
    PlugInOrder(z, Nil);
    forall n | n in s ensures n.key != key {
      InOrderNodes(t, n);
    }
  }

  lemma SortedBetween(a: seq<RbNode>, n: RbNode, b: seq<RbNode>)
    requires Sorted(a + b) && (forall m | m in a :: m.key < n.key) && (forall m | m in b :: n.key < m.key)
    ensures Sorted(a + [n] + b)
  {
    var q, q' := a + b, a + [n] + b;
    forall i, j | 0 <= i < j < |q'| ensures q'[i].key < q'[j].key {
      if i < |a| && j > |a| {
        assert q[i] == q'[i] && q[j - 1] == q'[j];
      } else if i > |a| {
        assert q[i - 1] == q'[i] && q[j - 1] == q'[j];
      } else if j < |a| {
        assert q[i] == q'[i] && q[j] == q'[j];
      } else if j == |a| {
        assert q'[i] in a;
      } else {
        assert q'[j] in b;
      }
    }
  }

  /** Removes a member of the tree. */
  method Remove(node: RbNode, root: RbRoot, ghost t: Tree, ghost s: set<RbNode>) returns (ghost tree: Tree)
    requires Valid(t, root, s) && node in s
    modifies root, s
    ensures Valid(tree, root, s - {node}) && Removed(InOrder(t), node, InOrder(tree))
  {
    tree := Erase(node, root, t, s);
  }

  // ----- Depth ---------------------------------------------------------------------------------

  ghost function Depth(t: Tree): nat {
    if t.Nil? then 0 else 1 + if Depth(t.left) >= Depth(t.right) then Depth(t.left) else Depth(t.right)
  }

  lemma {:induction false} DepthByHeight(t: Tree)
    requires RedOk(t) && Balanced(t)
    ensures Depth(t) <= 2 * BlackHeight(t) + if IsBlack(t) then 0 else 1
    ensures Pow2(BlackHeight(t)) <= |InOrder(t)| + 1
  {
    if t.Bin? {
      DepthByHeight(t.left);
      DepthByHeight(t.right);
    }
  }

  /** Depth at most 2 * log2(n + 1). */
  lemma DepthBound(t: Tree)
    requires RedBlack(t)
    ensures Pow2(Depth(t)) <= (|InOrder(t)| + 1) * (|InOrder(t)| + 1)
  {
    DepthByHeight(t);
    var h, n := BlackHeight(t), |InOrder(t)| + 1;
    Pow2Mono(Depth(t), h + h);
    Pow2Sum(h, h);
    SquareMono(Pow2(h), n);
  }
}
