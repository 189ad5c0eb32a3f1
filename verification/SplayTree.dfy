/** The splay tree: a search tree on the heap whose operations first bring the element they look for, or one
    next to it, to the root. */
module SplayTrees {
  import opened SplayShapes
  import opened SplaySteps

  class SplayTree {
    var root: Bnode?
    var lastNode: Bnode?
    var bnilNode: Bnode?
    var initialized: bool
    var size: nat
    ghost var shape: Shape

    /** Rotations hand back the new root of the subtree. */
    method RotateWithLeftChild(k2: Bnode, ghost d: set<Bnode>) returns (k1: Bnode)
      requires k2.left != null && k2.left != k2 && k2 in d && k2.left in d
      modifies k2`left, k2.left`right
      ensures k1 == old(k2.left)
      ensures Now(d) == Links(old(Now(d)).left[k2 := old(Now(d)).right[k1]], old(Now(d)).right[k1 := k2])
    {
      ghost var v := Now(d);
      k1 := k2.left;
      k2.left := k1.right;
      k1.right := k2;
      NowIs(d, Links(v.left[k2 := v.right[k1]], v.right[k1 := k2]));
    }

    method RotateWithRightChild(k1: Bnode, ghost d: set<Bnode>) returns (k2: Bnode)
      requires k1.right != null && k1.right != k1 && k1 in d && k1.right in d
      modifies k1`right, k1.right`left
      ensures k2 == old(k1.right)
      ensures Now(d) == Links(old(Now(d)).left[k2 := k1], old(Now(d)).right[k1 := old(Now(d)).left[k2]])
    {
      ghost var v := Now(d);
      k2 := k1.right;
      k1.right := k2.left;
      k2.left := k1;
      NowIs(d, Links(v.left[k2 := k1], v.right[k1 := v.left[k2]]));
    }

    /** Rotates if `t` is smaller than the left child's element, too. */
    method ZigLeft(t: int, n: Bnode, ghost e: map<Bnode, int>, ghost whole: seq<Bnode>, ghost nodes: set<Bnode>, ghost p: Parts)
      returns (m: Bnode, ghost q: Parts)
      requires bnilNode != null && bnilNode.element == t && Going(e, t, n, bnilNode, whole, nodes, p) && t < n.element
      modifies nodes`left, nodes`right
      ensures Going(e, t, m, bnilNode, whole, nodes, q) && t < m.element && (m.left == bnilNode <==> q.cur.l.Nil?)
      ensures q == p || (p.cur.l.Fork? && q == p.(cur := TurnedRight(p.cur)))
    {
      hide Pointers, Narrowed, Sorted, Within;
      ghost var d := nodes + {p.header};
      m, q := n, p;
      RootFacts(e, Now(d), n, bnilNode, p, t, whole, nodes);
      if t < n.left.element {
        ghost var v := Now(d);
        m := RotateWithLeftChild(n, d);
        TurnRightStep(e, t, whole, v, Now(d), n, bnilNode, p, nodes);
        q := p.(cur := TurnedRight(p.cur));
        RootFacts(e, Now(d), m, bnilNode, q, t, whole, nodes);
      }
    }

    method ZigRight(t: int, n: Bnode, ghost e: map<Bnode, int>, ghost whole: seq<Bnode>, ghost nodes: set<Bnode>, ghost p: Parts)
      returns (m: Bnode, ghost q: Parts)
      requires bnilNode != null && bnilNode.element == t && Going(e, t, n, bnilNode, whole, nodes, p) && n.element < t
      modifies nodes`left, nodes`right
      ensures Going(e, t, m, bnilNode, whole, nodes, q) && m.element < t && (m.right == bnilNode <==> q.cur.r.Nil?)
      ensures q == p || (p.cur.r.Fork? && q == p.(cur := TurnedLeft(p.cur)))
    {
      hide Pointers, Narrowed, Sorted, Within;
      ghost var d := nodes + {p.header};
      m, q := n, p;
      RootFacts(e, Now(d), n, bnilNode, p, t, whole, nodes);
      if n.right.element < t {
        ghost var v := Now(d);
        m := RotateWithRightChild(n, d);
        TurnLeftStep(e, t, whole, v, Now(d), n, bnilNode, p, nodes);
        q := p.(cur := TurnedLeft(p.cur));
        RootFacts(e, Now(d), m, bnilNode, q, t, whole, nodes);
      }
    }

    /** The node and its right subtree go to the right spine. */
    method LinkRight(t: int, n: Bnode, high: Bnode, ghost e: map<Bnode, int>, ghost whole: seq<Bnode>, ghost nodes: set<Bnode>, ghost p: Parts)
      returns (m: Bnode)
      requires bnilNode != null && Going(e, t, n, bnilNode, whole, nodes, p) && t < n.element && p.high == high && n.left != bnilNode
      modifies high`left
      ensures p.cur.Fork? && p.cur.node == n && Going(e, t, m, bnilNode, whole, nodes, LinkedRight(p))
    {
      hide Pointers, Narrowed, Sorted, Within;
      ghost var d := nodes + {p.header};
      ghost var v := Now(d);
      RootFacts(e, v, n, bnilNode, p, t, whole, nodes);
      EndsWithin(e, p, nodes, t, whole);
      m := n.left;
      high.left := n;
      NowIs(d, v.(left := v.left[high := n]));
      LinkRightStep(e, t, whole, v, n, bnilNode, p, nodes);
    }

    method LinkLeft(t: int, n: Bnode, low: Bnode, ghost e: map<Bnode, int>, ghost whole: seq<Bnode>, ghost nodes: set<Bnode>, ghost p: Parts)
      returns (m: Bnode)
      requires bnilNode != null && Going(e, t, n, bnilNode, whole, nodes, p) && n.element < t && p.low == low && n.right != bnilNode
      modifies low`right
      ensures p.cur.Fork? && p.cur.node == n && Going(e, t, m, bnilNode, whole, nodes, LinkedLeft(p))
    {
      hide Pointers, Narrowed, Sorted, Within;
      ghost var d := nodes + {p.header};
      ghost var v := Now(d);
      RootFacts(e, v, n, bnilNode, p, t, whole, nodes);
      EndsWithin(e, p, nodes, t, whole);
      m := n.right;
      low.right := n;
      NowIs(d, v.(right := v.right[low := n]));
      LinkLeftStep(e, t, whole, v, n, bnilNode, p, nodes);
    }

    method HangSubtrees(n: Bnode, low: Bnode, high: Bnode, ghost d: set<Bnode>)
      requires n in d && low in d && high in d && low != n && high != n
      modifies low`right, high`left
      ensures Now(d) == Links(old(Now(d)).left[high := old(Now(d)).right[n]], old(Now(d)).right[low := old(Now(d)).left[n]])
    {
      ghost var v := Now(d);
      low.right := n.left;
      high.left := n.right;
      NowIs(d, Links(v.left[high := v.right[n]], v.right[low := v.left[n]]));
    }

    method HangSpines(n: Bnode, header: Bnode, ghost d: set<Bnode>)
      requires n in d && header in d && n != header
      modifies n`left, n`right
      ensures Now(d) == Links(old(Now(d)).left[n := old(Now(d)).right[header]], old(Now(d)).right[n := old(Now(d)).left[header]])
    {
      ghost var v := Now(d);
      n.left := header.right;
      n.right := header.left;
      NowIs(d, Links(v.left[n := v.right[header]], v.right[n := v.left[header]]));
    }

    /** The subtrees of the last node go to the ends of the spines, and the spines under the node. */
    method Assemble(t: int, n: Bnode, header: Bnode, low: Bnode, high: Bnode, ghost e: map<Bnode, int>, ghost whole: seq<Bnode>, ghost nodes: set<Bnode>, ghost p: Parts)
      requires bnilNode != null && Going(e, t, n, bnilNode, whole, nodes, p) && p.header == header && p.low == low && p.high == high
      requires (t < n.element ==> n.left == bnilNode) && (n.element < t ==> n.right == bnilNode)
      modifies (nodes + {header})`left, (nodes + {header})`right
      ensures p.cur.Fork? && Tree(Now(nodes), n, bnilNode, Closed(p)) && Nodes(Closed(p)) == nodes && Order(Closed(p)) == whole
      ensures Closest(e, t, n, whole)
    {
      hide Pointers, Narrowed, Sorted, Within, Closest, Tree, Elements, Order, Nodes, Closed;
      ghost var d := nodes + {header};
      ghost var v := Now(d);
      RootFacts(e, v, n, bnilNode, p, t, whole, nodes);
      EndsWithin(e, p, nodes, t, whole);
      EndsClosest(e, t, n, bnilNode, whole, nodes, p);
      ghost var x, w := ClosedStep(e, t, whole, v, n, bnilNode, p, nodes);
      HangSubtrees(n, low, high, d);
      HangSpines(n, header, d);
      NowOfPart(w, nodes, d, n, bnilNode, Closed(p));
    }

    /** Top-down splaying. The nodes keep their order; the root has the element or one next to it. */
    method Splay(t: int, n0: Bnode, ghost s: Shape) returns (n: Bnode, ghost s': Shape)
      requires bnilNode != null && bnilNode !in Nodes(s) && s.Fork? && Tree(Now(Nodes(s)), n0, bnilNode, s)
      requires Sorted(Elements(Nodes(s)), Order(s))
      modifies bnilNode`element, Nodes(s)`left, Nodes(s)`right
      ensures s'.Fork? && n == s'.node && n in Nodes(s) && Nodes(s') == Nodes(s) && Order(s') == Order(s) && Tree(Now(Nodes(s')), n, bnilNode, s')
      ensures Elements(Nodes(s)) == old(Elements(Nodes(s))) && Closest(Elements(Nodes(s)), t, n, Order(s)) && bnilNode.element == t
    {
      hide Tree, Going, Closest, Order, Nodes, Sorted, Now, Elements;
      ghost var v0, nodes, whole, e := Now(Nodes(s)), Nodes(s), Order(s), Elements(Nodes(s));
      var header := new Bnode();
      header.left, header.right := bnilNode, bnilNode;
      var leftTreeMax, rightTreeMin := header, header;
      bnilNode.element := t;
      n := n0;
      ghost var p := NothingApart(e, v0, t, n, bnilNode, s, header);
      while true
        invariant p.header == header && p.low == leftTreeMax && p.high == rightTreeMin
        invariant Going(e, t, n, bnilNode, whole, nodes, p) && bnilNode.element == t
        decreases p.cur
      {
        GoingFacts(e, t, n, bnilNode, whole, nodes, p);
        if t < n.element {
          n, p := ZigLeft(t, n, e, whole, nodes, p);
          if n.left == bnilNode {
            break;
          }
          var m := LinkRight(t, n, rightTreeMin, e, whole, nodes, p);
          p := LinkedRight(p);
          rightTreeMin, n := n, m;
        } else if n.element < t {
          n, p := ZigRight(t, n, e, whole, nodes, p);
          if n.right == bnilNode {
            break;
          }
          var m := LinkLeft(t, n, leftTreeMax, e, whole, nodes, p);
          p := LinkedLeft(p);
          leftTreeMax, n := n, m;
        } else {
          break;
        }
      }
      Assemble(t, n, header, leftTreeMax, rightTreeMin, e, whole, nodes, p);
      s' := Closed(p);
      RootIsNil(Now(nodes), n, bnilNode, s');
    }

    // -------------------------------------------------------------------------
    // Operations

    ghost predicate Valid()
      reads this, if bnilNode == null then {} else {bnilNode}, Nodes(shape)
    {
      && initialized && bnilNode != null && root != null && bnilNode.left == bnilNode && bnilNode.right == bnilNode
      && bnilNode !in Nodes(shape) && Tree(Now(Nodes(shape)), root, bnilNode, shape) && Sorted(Elements(Nodes(shape)), Order(shape))
      && (lastNode != null ==> lastNode !in Nodes(shape) && lastNode != bnilNode)
    }

    ghost predicate Has(x: int)
      reads this, Nodes(shape)
    {
      x in Elements(Nodes(shape)).Values
    }

    constructor ()
      ensures !initialized && lastNode == null
    {
      lastNode, initialized, size := null, false, 0;
    }

    method SetNil(e: int)
      requires !initialized && lastNode == null
      modifies this
      ensures Valid() && fresh(bnilNode) && forall x {:trigger Has(x)} :: !Has(x)
    {
      bnilNode := new Bnode();
      bnilNode.left := bnilNode;
      bnilNode.right := bnilNode;
      bnilNode.element := e;
      root := bnilNode;
      initialized := true;
      shape := Nil;
    }

    /** The new node goes above the root, with what is smaller on its left and the root on its right. */
    method PutBefore(n: Bnode, last: Bnode, ghost s: Shape) returns (ghost s': Shape)
      requires bnilNode != null && Tree(Now(Nodes(s)), n, bnilNode, s) && s.Fork? && Proper(s) && last !in Nodes(s)
      modifies n`left, last`left, last`right
      ensures s' == Fork(s.l, last, Fork(Nil, n, s.r)) && Nodes(s') == Nodes(s) + {last} && Tree(Now(Nodes(s')), last, bnilNode, s')
    {
      ghost var w := NewRootBefore(Now(Nodes(s)), n, bnilNode, s, last);
      hide Tree, Nodes, Proper;
      last.left := n.left;
      last.right := n;
      n.left := bnilNode;
      NowIs(Nodes(s) + {last}, w);
      s' := Fork(s.l, last, Fork(Nil, n, s.r));
    }

    method PutAfter(n: Bnode, last: Bnode, ghost s: Shape) returns (ghost s': Shape)
      requires bnilNode != null && Tree(Now(Nodes(s)), n, bnilNode, s) && s.Fork? && Proper(s) && last !in Nodes(s)
      modifies n`right, last`left, last`right
      ensures s' == Fork(Fork(s.l, n, Nil), last, s.r) && Nodes(s') == Nodes(s) + {last} && Tree(Now(Nodes(s')), last, bnilNode, s')
    {
      ghost var w := NewRootAfter(Now(Nodes(s)), n, bnilNode, s, last);
      hide Tree, Nodes, Proper;
      last.right := n.right;
      last.left := n;
      n.right := bnilNode;
      NowIs(Nodes(s) + {last}, w);
      s' := Fork(Fork(s.l, n, Nil), last, s.r);
    }

    /** A new root, if the splayed one has another element. */
    method PutOnTop(x: int)
      requires Valid() && lastNode != null && lastNode.element == x && shape.Fork? && root.element != x
      requires Closest(Elements(Nodes(shape)), x, root, Order(shape))
      modifies this`root, this`shape, this`lastNode, root`left, root`right, lastNode`left, lastNode`right
      ensures Valid() && root == old(lastNode) && lastNode == null && Nodes(shape) == old(Nodes(shape)) + {root}
      ensures !old(Has(x))
    {
      hide Tree, Sorted, Closest, Order, Nodes, Proper, Now, Elements, K;
      ghost var s, e := shape, Elements(Nodes(shape));
      SortedIsProper(e, s);
      AtRoot(Now(Nodes(s)), root, bnilNode, s);
      KeyIs(Nodes(s), root);
      NotThere(s, root, x);
      IsElement(Nodes(s), x);
      InsertedSorted(e, s, lastNode, x);
      if x < root.element {
        shape := PutBefore(root, lastNode, s);
      } else {
        shape := PutAfter(root, lastNode, s);
      }
      WithElement(Nodes(s), lastNode, e);
      root := lastNode;
      lastNode := null;
    }

    method PutFirst()
      requires Valid() && lastNode != null && shape.Nil?
      modifies this`root, this`shape, this`lastNode, lastNode`left, lastNode`right
      ensures Valid() && root == old(lastNode) && lastNode == null && Nodes(shape) == {root}
    {
      lastNode.left, lastNode.right := bnilNode, bnilNode;
      root := lastNode;
      lastNode := null;
      shape := Fork(Nil, root, Nil);
      assert Order(shape) == [root];
    }

    /** Adds the element; it is at the root then. */
    method Insert(x: int)
      requires Valid()
      modifies this, bnilNode, if lastNode == null then {} else {lastNode}, Nodes(shape)
      ensures Valid() && bnilNode == old(bnilNode) && root in Nodes(shape) && root.element == x
      ensures forall y {:trigger Has(y)} :: Has(y) <==> old(Has(y)) || y == x
      ensures old(Has(x)) ==> Nodes(shape) == old(Nodes(shape)) && Order(shape) == old(Order(shape))
      ensures !old(Has(x)) ==> Nodes(shape) == old(Nodes(shape)) + {root} && root !in old(Nodes(shape))
      ensures Elements(old(Nodes(shape))) == old(Elements(Nodes(shape)))
    {
      hide Tree, Sorted, Closest, Order, Proper, Now, Elements, K, Nodes;
      ghost var nodes := Nodes(shape);
      RootIsNil(Now(nodes), root, bnilNode, shape);
      if lastNode == null {
        lastNode := new Bnode();
        size := size + 1;
      }
      lastNode.element := x;
      if root == bnilNode {
        PutFirst();
      } else {
        root, shape := Splay(x, root, shape);
        RootIsNil(Now(Nodes(shape)), root, bnilNode, shape);
        if x < root.element || root.element < x {
          PutOnTop(x);
        }
      }
      assert Nodes(shape) == nodes + {root};
      IsElement(nodes, x);
      forall y ensures Has(y) <==> old(Has(y)) || y == x { OneMore(nodes, root, y); }
    }

    method HangRight(m: Bnode, c: Bnode?, ghost d: set<Bnode>)
      requires m in d
      modifies m`right
      ensures Now(d) == old(Now(d)).(right := old(Now(d)).right[m := c])
    {
      ghost var v := Now(d);
      m.right := c;
      NowIs(d, v.(right := v.right[m := c]));
    }

    /** Both parts of a tree without its root. */
    method WithoutRoot(x: int, n: Bnode, ghost s: Shape) returns (m: Bnode, ghost s': Shape)
      requires bnilNode != null && bnilNode !in Nodes(s) && s.Fork? && Tree(Now(Nodes(s)), n, bnilNode, s)
      requires Sorted(Elements(Nodes(s)), Order(s)) && n.element == x
      modifies bnilNode`element, Nodes(s)`left, Nodes(s)`right
      ensures Elements(Nodes(s)) == old(Elements(Nodes(s)))
      ensures n in Nodes(s) && Nodes(s') == Nodes(s) - {n} && Tree(Now(Nodes(s')), m, bnilNode, s') && Sorted(Elements(Nodes(s')), Order(s'))
      ensures forall o {:trigger o in Nodes(s')} :: o in Nodes(s') ==> o.element != x
    {
      hide Tree, Sorted, Closest, Order, Proper, Now, Elements, K, Nodes;
      ghost var whole, e := Nodes(s), Elements(Nodes(s));
      ghost var rest := whole - {n};
      RootParts(n, bnilNode, s);
      RootElements(x, n, bnilNode, s);
      if n.left == bnilNode {
        m := n.right;
        s' := s.r;
        assert Order(s.l) + Order(s.r) == Order(s.r);
      } else {
        ghost var l;
        m, l := Splay(x, n.left, s.l);
        SortedIsProper(Elements(Nodes(s.l)), l);
        GreatestOnTop(Elements(Nodes(s.l)), l, x);
        NowOfMore(m, bnilNode, l, rest);
        NowOfMore(n.right, bnilNode, s.r, rest);
        ghost var w := NewRight(Now(rest), m, bnilNode, l, n.right, s.r);
        HangRight(m, n.right, rest);
        JoinedParts(l, s.r, rest);
        s' := Fork(l.l, m, s.r);
      }
    }

    /** Takes the element out, if it is there. An empty tree must not be asked: its sentinel would be deleted. */
    method Remove(x: int)
      requires Valid() && shape.Fork?
      modifies this`root, this`shape, bnilNode`element, Nodes(shape)`left, Nodes(shape)`right
      ensures Valid() && forall y {:trigger Has(y)} :: Has(y) <==> old(Has(y)) && y != x
      ensures !old(Has(x)) ==> Nodes(shape) == old(Nodes(shape)) && Order(shape) == old(Order(shape))
      ensures Nodes(shape) <= old(Nodes(shape))
    {
      hide Tree, Sorted, Closest, Order, Proper, Now, Elements, K, Nodes;
      root, shape := Splay(x, root, shape);
      if root.element != x {
        NotThere(shape, root, x);
        IsElement(Nodes(shape), x);
        return;
      }
      ghost var n, before := root, Nodes(shape);
      IsElement(before, x);
      root, shape := WithoutRoot(x, root, shape);
      forall y ensures Has(y) <==> old(Has(y)) && y != x { OneLess(before, n, y); }
    }
  }
}
