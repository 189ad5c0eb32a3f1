/** The elements in a tree that is splayed: what each step keeps, and what is at the root in the end. */
module SplaySteps {
  import opened SplayShapes

  // ---------------------------------------------------------------------------
  // Elements

  ghost function Elements(nodes: set<Bnode>): map<Bnode, int>
    reads nodes`element
  {
    map n | n in nodes :: n.element
  }

  lemma WithElement(nodes: set<Bnode>, last: Bnode, e: map<Bnode, int>)
    requires Elements(nodes) == e
    ensures Elements(nodes + {last}) == e[last := last.element]
  {
  }

  lemma IsElement(nodes: set<Bnode>, x: int)
    ensures x in Elements(nodes).Values <==> exists o {:trigger o in nodes} :: o in nodes && o.element == x
  {
    if o :| o in nodes && o.element == x { assert Elements(nodes)[o] == x; }
  }

  lemma OneLess(nodes: set<Bnode>, n: Bnode, x: int)
    requires n in nodes && forall o {:trigger o in nodes} :: o in nodes - {n} ==> o.element != n.element
    ensures x in Elements(nodes - {n}).Values <==> x in Elements(nodes).Values && x != n.element
  {
    IsElement(nodes, x);
    IsElement(nodes - {n}, x);
    if o :| o in nodes && o.element == x && o != n { assert o in nodes - {n}; }
  }

  lemma OneMore(nodes: set<Bnode>, n: Bnode, x: int)
    ensures x in Elements(nodes + {n}).Values <==> x in Elements(nodes).Values || x == n.element
  {
    IsElement(nodes, x);
    IsElement(nodes + {n}, x);
    assert n in nodes + {n};
    if o :| o in nodes && o.element == x { assert o in nodes + {n}; }
  }

  lemma KeyIs(nodes: set<Bnode>, n: Bnode)
    requires n in nodes
    ensures K(Elements(nodes), n) == n.element
  {
  }

  ghost function K(e: map<Bnode, int>, n: Bnode): int {
    if n in e then e[n] else 0
  }

  ghost predicate Sorted(e: map<Bnode, int>, s: seq<Bnode>)
  {
    forall i, j :: 0 <= i < j < |s| ==> K(e, s[i]) < K(e, s[j])
  }

  lemma SortedSides(e: map<Bnode, int>, a: seq<Bnode>, n: Bnode, b: seq<Bnode>)
    requires Sorted(e, a + [n] + b)
    ensures Sorted(e, a) && Sorted(e, b)
    ensures forall o {:trigger o in a} :: o in a ==> K(e, o) < K(e, n)
    ensures forall o {:trigger o in b} :: o in b ==> K(e, n) < K(e, o)
  {
    var s := a + [n] + b;
    assert s[|a|] == n;
    assert forall i {:trigger a[i]} :: 0 <= i < |a| ==> s[i] == a[i];
    assert forall i {:trigger b[i]} :: 0 <= i < |b| ==> s[|a| + 1 + i] == b[i];
  }

  lemma {:induction false} SortedIsProper(e: map<Bnode, int>, t: Shape)
    requires Sorted(e, Order(t))
    ensures Proper(t)
  {
    if t.Fork? {
      SortedSides(e, Order(t.l), t.node, Order(t.r));
      SortedIsProper(e, t.l);
      SortedIsProper(e, t.r);
      forall o {:trigger o in Nodes(t.l)} | o in Nodes(t.l) ensures K(e, o) < K(e, t.node) { NodesInOrder(t.l, o); }
      forall o {:trigger o in Nodes(t.r)} | o in Nodes(t.r) ensures K(e, t.node) < K(e, o) { NodesInOrder(t.r, o); }
      assert forall o :: o in Nodes(t.l) ==> o !in Nodes(t.r);
    }
  }

  /** The node has the element, or one next to it: none of the others lies between. */
  ghost predicate Closest(e: map<Bnode, int>, t: int, r: Bnode, s: seq<Bnode>)
  {
    r in s && forall o {:trigger o in s} :: o in s ==> !(t <= K(e, o) < K(e, r)) && !(K(e, r) < K(e, o) <= t)
  }

  /** Everything on the left spine is smaller than `t`, everything on the right spine greater. */
  ghost predicate Narrowed(e: map<Bnode, int>, t: int, s: seq<Bnode>, p: Parts)
  {
    && Separate(p) && Whole(p) == s
    && (forall o {:trigger o in RightOrder(p.ls)} :: o in RightOrder(p.ls) ==> K(e, o) < t)
    && (forall o {:trigger o in LeftOrder(p.rs)} :: o in LeftOrder(p.rs) ==> t < K(e, o))
  }

  lemma CurrentSides(e: map<Bnode, int>, s: seq<Bnode>, p: Parts)
    requires Separate(p) && Whole(p) == s && Sorted(e, s)
    ensures forall o {:trigger o in Order(p.cur.l)} :: o in Order(p.cur.l) ==> K(e, o) < K(e, p.cur.node)
    ensures forall o {:trigger o in Order(p.cur.r)} :: o in Order(p.cur.r) ==> K(e, p.cur.node) < K(e, o)
    ensures forall o {:trigger o in RightOrder(p.ls)} :: o in RightOrder(p.ls) ==> K(e, o) < K(e, p.cur.node)
    ensures forall o {:trigger o in LeftOrder(p.rs)} :: o in LeftOrder(p.rs) ==> K(e, p.cur.node) < K(e, o)
  {
    assert s == (RightOrder(p.ls) + Order(p.cur.l)) + [p.cur.node] + (Order(p.cur.r) + LeftOrder(p.rs));
    SortedSides(e, RightOrder(p.ls) + Order(p.cur.l), p.cur.node, Order(p.cur.r) + LeftOrder(p.rs));
    var a, b := RightOrder(p.ls) + Order(p.cur.l), Order(p.cur.r) + LeftOrder(p.rs);
    forall o {:trigger o in Order(p.cur.l)} | o in Order(p.cur.l) ensures K(e, o) < K(e, p.cur.node) { assert o in a; }
    forall o {:trigger o in RightOrder(p.ls)} | o in RightOrder(p.ls) ensures K(e, o) < K(e, p.cur.node) { assert o in a; }
    forall o {:trigger o in Order(p.cur.r)} | o in Order(p.cur.r) ensures K(e, p.cur.node) < K(e, o) { assert o in b; }
    forall o {:trigger o in LeftOrder(p.rs)} | o in LeftOrder(p.rs) ensures K(e, p.cur.node) < K(e, o) { assert o in b; }
  }

  lemma NarrowRight(e: map<Bnode, int>, t: int, s: seq<Bnode>, p: Parts)
    requires Narrowed(e, t, s, p) && Sorted(e, s) && t < K(e, p.cur.node) && p.cur.l.Fork?
    ensures Narrowed(e, t, s, LinkedRight(p))
  {
    LinkRightSeparate(p);
    LinkRightWhole(p);
    CurrentSides(e, s, p);
  }

  lemma NarrowLeft(e: map<Bnode, int>, t: int, s: seq<Bnode>, p: Parts)
    requires Narrowed(e, t, s, p) && Sorted(e, s) && K(e, p.cur.node) < t && p.cur.r.Fork?
    ensures Narrowed(e, t, s, LinkedLeft(p))
  {
    LinkLeftSeparate(p);
    LinkLeftWhole(p);
    CurrentSides(e, s, p);
  }

  lemma FoundClosest(e: map<Bnode, int>, t: int, s: seq<Bnode>, p: Parts)
    requires Narrowed(e, t, s, p) && Sorted(e, s)
    requires t < K(e, p.cur.node) ==> p.cur.l.Nil?
    requires K(e, p.cur.node) < t ==> p.cur.r.Nil?
    ensures Closest(e, t, p.cur.node, s)
  {
    CurrentSides(e, s, p);
    var r := p.cur.node;
    assert s == RightOrder(p.ls) + (Order(p.cur.l) + [r] + Order(p.cur.r)) + LeftOrder(p.rs);
    assert r in Order(p.cur);
    forall o {:trigger o in s} | o in s ensures !(t <= K(e, o) < K(e, r)) && !(K(e, r) < K(e, o) <= t) {
      assert p.cur.l.Nil? ==> o !in Order(p.cur.l);
      assert p.cur.r.Nil? ==> o !in Order(p.cur.r);
      assert o in RightOrder(p.ls) || o in Order(p.cur.l) || o == r || o in Order(p.cur.r) || o in LeftOrder(p.rs);
    }
  }

  lemma NarrowTurned(e: map<Bnode, int>, t: int, s: seq<Bnode>, p: Parts, cur: Shape)
    requires Narrowed(e, t, s, p) && cur.Fork? && Proper(cur) && Nodes(cur) == Nodes(p.cur) && Order(cur) == Order(p.cur)
    ensures Narrowed(e, t, s, p.(cur := cur))
  {
  }

  /** One rotation with the left child. */
  lemma TurnRightStep(e: map<Bnode, int>, t: int, s: seq<Bnode>, v: Links, w: Links, n: Bnode, nil: Bnode, p: Parts, nodes: set<Bnode>)
    requires Pointers(v, n, nil, p) && Narrowed(e, t, s, p) && Within(p, nodes) && p.cur.l.Fork?
    requires n in v.left && v.left[n] == p.cur.l.node && p.cur.l.node in v.right
    requires w == Links(v.left[n := v.right[p.cur.l.node]], v.right[p.cur.l.node := n])
    ensures Pointers(w, p.cur.l.node, nil, p.(cur := TurnedRight(p.cur)))
    ensures Narrowed(e, t, s, p.(cur := TurnedRight(p.cur))) && Within(p.(cur := TurnedRight(p.cur)), nodes)
  {
    TurnRight(v, n, nil, p.cur);
    TurnPointers(v, w, n, nil, p, TurnedRight(p.cur));
    NarrowTurned(e, t, s, p, TurnedRight(p.cur));
  }

  lemma TurnLeftStep(e: map<Bnode, int>, t: int, s: seq<Bnode>, v: Links, w: Links, n: Bnode, nil: Bnode, p: Parts, nodes: set<Bnode>)
    requires Pointers(v, n, nil, p) && Narrowed(e, t, s, p) && Within(p, nodes) && p.cur.r.Fork?
    requires n in v.right && v.right[n] == p.cur.r.node && p.cur.r.node in v.left
    requires w == Links(v.left[p.cur.r.node := n], v.right[n := v.left[p.cur.r.node]])
    ensures Pointers(w, p.cur.r.node, nil, p.(cur := TurnedLeft(p.cur)))
    ensures Narrowed(e, t, s, p.(cur := TurnedLeft(p.cur))) && Within(p.(cur := TurnedLeft(p.cur)), nodes)
  {
    TurnLeft(v, n, nil, p.cur);
    TurnPointers(v, w, n, nil, p, TurnedLeft(p.cur));
    NarrowTurned(e, t, s, p, TurnedLeft(p.cur));
  }

  /** What the pointers at the root of the tree that is left say. */
  lemma AtRoot(v: Links, n: Bnode, nil: Bnode, cur: Shape)
    requires Tree(v, n, nil, cur) && cur.Fork? && Proper(cur)
    ensures n == cur.node && n in v.left && n in v.right && n in Nodes(cur)
    ensures v.left[n] == if cur.l.Nil? then nil else cur.l.node
    ensures v.right[n] == if cur.r.Nil? then nil else cur.r.node
    ensures cur.l.Fork? ==> cur.l.node in Nodes(cur) && cur.l.node in v.right && cur.l.node != n && cur.l.node in Order(cur.l)
    ensures cur.r.Fork? ==> cur.r.node in Nodes(cur) && cur.r.node in v.left && cur.r.node != n && cur.r.node in Order(cur.r)
  {
    assert Tree(v, v.left[n], nil, cur.l) && Tree(v, v.right[n], nil, cur.r);
  }

  lemma RootFacts(e: map<Bnode, int>, v: Links, n: Bnode, nil: Bnode, p: Parts, t: int, s: seq<Bnode>, nodes: set<Bnode>)
    requires Pointers(v, n, nil, p) && Narrowed(e, t, s, p) && Within(p, nodes)
    ensures n == p.cur.node && n in v.left && n in v.right && n in nodes && p.cur.Fork?
    ensures v.left[n] == if p.cur.l.Nil? then nil else p.cur.l.node
    ensures v.right[n] == if p.cur.r.Nil? then nil else p.cur.r.node
    ensures p.cur.l.Fork? ==> p.cur.l.node in nodes && p.cur.l.node in v.right && p.cur.l.node != n && (Sorted(e, s) ==> K(e, p.cur.l.node) < K(e, n))
    ensures p.cur.r.Fork? ==> p.cur.r.node in nodes && p.cur.r.node in v.left && p.cur.r.node != n && (Sorted(e, s) ==> K(e, n) < K(e, p.cur.r.node))
  {
    hide Tree, RightSpine, LeftSpine, Members, Sorted;
    AtRoot(v, n, nil, p.cur);
    if Sorted(e, s) { CurrentSides(e, s, p); }
  }

  lemma EndsWithin(e: map<Bnode, int>, p: Parts, nodes: set<Bnode>, t: int, s: seq<Bnode>)
    requires Narrowed(e, t, s, p) && Within(p, nodes)
    ensures p.low in nodes + {p.header} && p.high in nodes + {p.header} && p.low != p.cur.node && p.high != p.cur.node
  {
    assert p.cur.node in Nodes(p.cur);
  }

  lemma LinkRightStep(e: map<Bnode, int>, t: int, s: seq<Bnode>, v: Links, n: Bnode, nil: Bnode, p: Parts, nodes: set<Bnode>)
    requires Pointers(v, n, nil, p) && Narrowed(e, t, s, p) && Sorted(e, s) && Within(p, nodes) && p.cur.l.Fork? && t < K(e, p.cur.node)
    ensures Pointers(v.(left := v.left[p.high := n]), p.cur.l.node, nil, LinkedRight(p))
    ensures Narrowed(e, t, s, LinkedRight(p)) && Within(LinkedRight(p), nodes)
  {
    hide Pointers, Sorted;
    LinkRightPointers(v, n, nil, p);
    NarrowRight(e, t, s, p);
    MembersFacts(p.rs, p.cur.node, p.cur.r);
  }

  lemma LinkLeftStep(e: map<Bnode, int>, t: int, s: seq<Bnode>, v: Links, n: Bnode, nil: Bnode, p: Parts, nodes: set<Bnode>)
    requires Pointers(v, n, nil, p) && Narrowed(e, t, s, p) && Sorted(e, s) && Within(p, nodes) && p.cur.r.Fork? && K(e, p.cur.node) < t
    ensures Pointers(v.(right := v.right[p.low := n]), p.cur.r.node, nil, LinkedLeft(p))
    ensures Narrowed(e, t, s, LinkedLeft(p)) && Within(LinkedLeft(p), nodes)
  {
    hide Pointers, Sorted;
    LinkLeftPointers(v, n, nil, p);
    NarrowLeft(e, t, s, p);
    MembersFacts(p.ls, p.cur.node, p.cur.l);
  }

  ghost predicate Within(p: Parts, nodes: set<Bnode>) {
    p.cur.Fork? && Members(p.ls) + Nodes(p.cur) + Members(p.rs) == nodes
  }

  lemma ClosedStep(e: map<Bnode, int>, t: int, s: seq<Bnode>, v: Links, n: Bnode, nil: Bnode, p: Parts, nodes: set<Bnode>) returns (x: Links, w: Links)
    requires Pointers(v, n, nil, p) && Narrowed(e, t, s, p) && Within(p, nodes)
    requires v.left.Keys == nodes + {p.header} == v.right.Keys
    ensures n in v.left && n in v.right && x == Links(v.left[p.high := v.right[n]], v.right[p.low := v.left[n]])
    ensures p.header in x.left && p.header in x.right && w == Links(x.left[n := x.right[p.header]], x.right[n := x.left[p.header]])
    ensures Tree(w, n, nil, Closed(p)) && Nodes(Closed(p)) == nodes && Order(Closed(p)) == s
  {
    hide Pointers;
    x, w := ClosedPointers(v, n, nil, p);
    ClosedOrder(p);
  }

  // ---------------------------------------------------------------------------
  // The state between two steps

  /** The state of splaying for `t`: `nodes` are taken apart, and `n` is the root of what is left. */
  ghost predicate Going(e: map<Bnode, int>, t: int, n: Bnode, nil: Bnode, whole: seq<Bnode>, nodes: set<Bnode>, p: Parts)
    reads (nodes + {p.header})`left, (nodes + {p.header})`right, nodes`element
  {
    && Pointers(Now(nodes + {p.header}), n, nil, p) && Narrowed(e, t, whole, p) && Sorted(e, whole) && Within(p, nodes)
    && nil !in nodes + {p.header} && p.header !in nodes && Elements(nodes) == e
  }

  lemma GoingFacts(e: map<Bnode, int>, t: int, n: Bnode, nil: Bnode, whole: seq<Bnode>, nodes: set<Bnode>, p: Parts)
    requires Going(e, t, n, nil, whole, nodes, p)
    ensures n in nodes && p.cur.Fork? && p.low in nodes + {p.header} && p.high in nodes + {p.header}
  {
    hide Pointers, Narrowed, Sorted, Within;
    RootFacts(e, Now(nodes + {p.header}), n, nil, p, t, whole, nodes);
    EndsWithin(e, p, nodes, t, whole);
  }

  lemma EndsClosest(e: map<Bnode, int>, t: int, n: Bnode, nil: Bnode, whole: seq<Bnode>, nodes: set<Bnode>, p: Parts)
    requires Going(e, t, n, nil, whole, nodes, p)
    requires (t < n.element ==> n.left == nil) && (n.element < t ==> n.right == nil)
    ensures Closest(e, t, n, whole)
  {
    hide Pointers, Narrowed, Sorted, Within;
    RootFacts(e, Now(nodes + {p.header}), n, nil, p, t, whole, nodes);
    FoundClosest(e, t, whole, p);
  }

  /** Before the first step nothing is taken apart. */
  lemma NothingApart(e: map<Bnode, int>, v: Links, t: int, n: Bnode, nil: Bnode, s: Shape, header: Bnode) returns (p: Parts)
    requires s.Fork? && Sorted(e, Order(s)) && Tree(v, n, nil, s) && header !in Nodes(s) && nil !in Nodes(s) + {header}
    requires v == Now(Nodes(s)) && e == Elements(Nodes(s))
    ensures p == Parts(header, header, End, s, End, header) && Going(e, t, n, nil, Order(s), Nodes(s), p)
  {
    p := Parts(header, header, End, s, End, header);
    SortedIsProper(e, s);
    SameTree(v, Now(Nodes(s) + {header}), n, nil, s);
    assert Whole(p) == Order(s);
  }

  // ---------------------------------------------------------------------------
  // A new root

  /** The root with its right subtree goes under the new node, on the right. */
  lemma NewRootBefore(v: Links, n: Bnode, nil: Bnode, s: Shape, last: Bnode) returns (w: Links)
    requires Tree(v, n, nil, s) && s.Fork? && Proper(s) && last !in Nodes(s)
    ensures n in v.left && w == Links(v.left[last := v.left[n]][n := nil], v.right[last := n])
    ensures Tree(w, last, nil, Fork(s.l, last, Fork(Nil, n, s.r))) && Nodes(Fork(s.l, last, Fork(Nil, n, s.r))) == Nodes(s) + {last}
  {
    w := Links(v.left[last := v.left[n]][n := nil], v.right[last := n]);
    SameTree(v, w, v.left[n], nil, s.l);
    SameTree(v, w, v.right[n], nil, s.r);
    assert Nodes(Fork(Nil, n, s.r)) == {n} + Nodes(s.r);
  }

  lemma NewRootAfter(v: Links, n: Bnode, nil: Bnode, s: Shape, last: Bnode) returns (w: Links)
    requires Tree(v, n, nil, s) && s.Fork? && Proper(s) && last !in Nodes(s)
    ensures n in v.right && w == Links(v.left[last := n], v.right[last := v.right[n]][n := nil])
    ensures Tree(w, last, nil, Fork(Fork(s.l, n, Nil), last, s.r)) && Nodes(Fork(Fork(s.l, n, Nil), last, s.r)) == Nodes(s) + {last}
  {
    w := Links(v.left[last := n], v.right[last := v.right[n]][n := nil]);
    SameTree(v, w, v.left[n], nil, s.l);
    SameTree(v, w, v.right[n], nil, s.r);
    assert Nodes(Fork(s.l, n, Nil)) == {n} + Nodes(s.l);
  }

  lemma SortedWith(e: map<Bnode, int>, a: seq<Bnode>, b: seq<Bnode>, last: Bnode, x: int)
    requires Sorted(e, a + b) && last !in a && last !in b
    requires forall o {:trigger o in a} :: o in a ==> K(e, o) < x
    requires forall o {:trigger o in b} :: o in b ==> x < K(e, o)
    ensures Sorted(e[last := x], a + [last] + b)
  {
    var s, t, f := a + b, a + [last] + b, e[last := x];
    forall i, j | 0 <= i < j < |t| ensures K(f, t[i]) < K(f, t[j]) {
      var i', j' := if i <= |a| then i else i - 1, if j <= |a| then j else j - 1;
      assert i != |a| && j != |a| ==> t[i] == s[i'] && t[j] == s[j'];
      assert i < |a| ==> t[i] in a;
      assert j > |a| ==> t[j] in b;
    }
  }

  /** A missing element lies between the root's left part and the root, or between the root and its right part. */
  lemma Between(e: map<Bnode, int>, s: Shape, x: int)
    requires s.Fork? && Sorted(e, Order(s)) && Closest(e, x, s.node, Order(s)) && x != K(e, s.node)
    ensures forall o {:trigger o in Order(s.l)} :: o in Order(s.l) ==> K(e, o) < x
    ensures forall o {:trigger o in Order(s.r)} :: o in Order(s.r) ==> x < K(e, o)
  {
    SortedSides(e, Order(s.l), s.node, Order(s.r));
    assert forall o {:trigger o in Order(s.l)} :: o in Order(s.l) ==> o in Order(s);
    assert forall o {:trigger o in Order(s.r)} :: o in Order(s.r) ==> o in Order(s);
  }

  lemma NotThere(s: Shape, n: Bnode, x: int)
    requires s.Fork? && n == s.node && Closest(Elements(Nodes(s)), x, n, Order(s)) && x != n.element
    ensures x != K(Elements(Nodes(s)), n) && forall o {:trigger o in Nodes(s)} :: o in Nodes(s) ==> o.element != x
  {
    forall o {:trigger o in Nodes(s)} | o in Nodes(s) ensures o.element != x { NodesInOrder(s, o); }
  }

  /** The new node's place in the order. */
  lemma InsertedSorted(e: map<Bnode, int>, s: Shape, last: Bnode, x: int)
    requires s.Fork? && Sorted(e, Order(s)) && Closest(e, x, s.node, Order(s)) && last !in Nodes(s) && x != K(e, s.node)
    ensures x < K(e, s.node) ==> Sorted(e[last := x], Order(Fork(s.l, last, Fork(Nil, s.node, s.r))))
    ensures K(e, s.node) < x ==> Sorted(e[last := x], Order(Fork(Fork(s.l, s.node, Nil), last, s.r)))
  {
    hide Sorted, Closest;
    Between(e, s, x);
    NodesInOrder(s.l, last);
    NodesInOrder(s.r, last);
    var a, b := Order(s.l) + [s.node], [s.node] + Order(s.r);
    if x < K(e, s.node) {
      assert Order(s) == Order(s.l) + b && Order(Fork(Nil, s.node, s.r)) == b;
      SortedWith(e, Order(s.l), b, last, x);
    } else {
      assert Order(s) == a + Order(s.r) && Order(Fork(s.l, s.node, Nil)) == a;
      SortedWith(e, a, Order(s.r), last, x);
    }
  }

  // ---------------------------------------------------------------------------
  // Taking the root out

  lemma RootInOrder(t: Shape)
    ensures t.Fork? ==> t.node in Order(t)
  {
  }

  /** Splayed for something greater than all it has, a tree has nothing to the right of its root. */
  lemma GreatestOnTop(e: map<Bnode, int>, l: Shape, x: int)
    requires l.Fork? && Sorted(e, Order(l)) && Closest(e, x, l.node, Order(l))
    requires forall o {:trigger o in Order(l)} :: o in Order(l) ==> K(e, o) < x
    ensures l.r.Nil?
  {
    SortedSides(e, Order(l.l), l.node, Order(l.r));
    RootInOrder(l.r);
    assert forall o {:trigger o in Order(l.r)} :: o in Order(l.r) ==> o in Order(l);
  }

  lemma RootIsNil(v: Links, n: Bnode, nil: Bnode, s: Shape)
    requires Tree(v, n, nil, s) && nil !in Nodes(s)
    ensures n == nil <==> s.Nil?
    ensures if s.Nil? then Nodes(s) == {} && Order(s) == [] else n == s.node && n in Nodes(s)
  {
  }

  lemma NewRight(v: Links, m: Bnode, nil: Bnode, l: Shape, n: Bnode?, r: Shape) returns (w: Links)
    requires Tree(v, m, nil, l) && l.Fork? && Proper(l) && Tree(v, n, nil, r) && m !in Nodes(r)
    ensures w == v.(right := v.right[m := n]) && Tree(w, m, nil, Fork(l.l, m, r))
  {
    w := v.(right := v.right[m := n]);
    SameTree(v, w, v.left[m], nil, l.l);
    SameTree(v, w, n, nil, r);
  }

  /** What is known of the parts of a splayed tree. */
  lemma PartsOf(e: map<Bnode, int>, v: Links, n: Bnode, nil: Bnode, s: Shape, whole: set<Bnode>)
    requires Tree(v, n, nil, s) && s.Fork? && Sorted(e, Order(s)) && Nodes(s) == whole
    ensures n == s.node && n in whole && n in v.left && n in v.right && Proper(s.l) && Nodes(s.l) + Nodes(s.r) == whole - {n} && Nodes(s.l) !! Nodes(s.r)
    ensures Tree(v, v.left[n], nil, s.l) && Tree(v, v.right[n], nil, s.r)
    ensures Sorted(e, Order(s.l)) && Sorted(e, Order(s.r)) && Sorted(e, Order(s.l) + Order(s.r))
    ensures forall o {:trigger o in Order(s.l)} :: o in Order(s.l) ==> K(e, o) < K(e, n)
    ensures forall o {:trigger o in whole} :: o in whole ==> (K(e, o) == K(e, n) <==> o == n)
  {
    SortedIsProper(e, s);
    SortedSides(e, Order(s.l), n, Order(s.r));
    SortedWithout(e, Order(s.l), n, Order(s.r));
    forall o {:trigger o in whole} | o in whole ensures K(e, o) == K(e, n) <==> o == n {
      NodesInOrder(s.l, o);
      NodesInOrder(s.r, o);
    }
  }

  lemma SortedWithout(e: map<Bnode, int>, a: seq<Bnode>, n: Bnode, b: seq<Bnode>)
    requires Sorted(e, a + [n] + b)
    ensures Sorted(e, a + b)
  {
    var s, t := a + [n] + b, a + b;
    assert forall i {:trigger t[i]} :: 0 <= i < |t| ==> t[i] == s[if i < |a| then i else i + 1];
  }

  lemma NowOfMore(n: Bnode?, nil: Bnode, t: Shape, d: set<Bnode>)
    requires Tree(Now(Nodes(t)), n, nil, t) && Nodes(t) <= d
    ensures Tree(Now(d), n, nil, t)
  {
    SameTree(Now(Nodes(t)), Now(d), n, nil, t);
  }

  /** Elements of fewer nodes. */
  lemma SortedPart(nodes: set<Bnode>, part: set<Bnode>, s: seq<Bnode>)
    requires part <= nodes && Sorted(Elements(nodes), s) && forall o {:trigger o in s} :: o in s ==> o in part
    ensures Sorted(Elements(part), s)
  {
    assert forall i {:trigger s[i]} :: 0 <= i < |s| ==> s[i] in s;
  }

  /** The left part's greatest node as the new root of both parts. */
  lemma JoinedParts(l: Shape, r: Shape, nodes: set<Bnode>)
    requires l.Fork? && l.r.Nil? && Nodes(l) + Nodes(r) == nodes
    ensures Nodes(Fork(l.l, l.node, r)) == nodes && Order(Fork(l.l, l.node, r)) == Order(l) + Order(r)
  {
    assert Order(l) == Order(l.l) + [l.node] + [];
  }

  lemma NowOfPart(w: Links, nodes: set<Bnode>, d: set<Bnode>, n: Bnode, nil: Bnode, t: Shape)
    requires Now(d) == w && nodes <= d && Nodes(t) == nodes && Tree(w, n, nil, t)
    ensures Tree(Now(nodes), n, nil, t)
  {
    SameTree(w, Now(nodes), n, nil, t);
  }

  /** What is known of a tree's parts: their pointers, and their elements. */
  lemma RootParts(n: Bnode, nil: Bnode, s: Shape)
    requires s.Fork? && Tree(Now(Nodes(s)), n, nil, s) && nil !in Nodes(s) && Sorted(Elements(Nodes(s)), Order(s))
    ensures n == s.node && n in Nodes(s) && Nodes(s.l) + Nodes(s.r) == Nodes(s) - {n} && Nodes(s.l) !! Nodes(s.r)
    ensures n.left != null && n.right != null && (n.left == nil <==> s.l.Nil?) && (s.l.Nil? ==> Nodes(s.l) == {} && Order(s.l) == [])
    ensures Tree(Now(Nodes(s.l)), n.left, nil, s.l) && Tree(Now(Nodes(s.r)), n.right, nil, s.r)
  {
    hide Tree, Sorted, Proper, Nodes, Order, Elements, K;
    var whole, v, e := Nodes(s), Now(Nodes(s)), Elements(Nodes(s));
    PartsOf(e, v, n, nil, s, whole);
    NowOfPart(v, Nodes(s.l), whole, n.left, nil, s.l);
    NowOfPart(v, Nodes(s.r), whole, n.right, nil, s.r);
    RootIsNil(v, n.left, nil, s.l);
    RootIsNil(v, n.right, nil, s.r);
  }

  lemma RootElements(x: int, n: Bnode, nil: Bnode, s: Shape)
    requires s.Fork? && Tree(Now(Nodes(s)), n, nil, s) && Sorted(Elements(Nodes(s)), Order(s)) && n.element == x
    ensures Sorted(Elements(Nodes(s.l)), Order(s.l)) && Sorted(Elements(Nodes(s) - {n}), Order(s.l) + Order(s.r))
    ensures forall o {:trigger o in Order(s.l)} :: o in Order(s.l) ==> K(Elements(Nodes(s.l)), o) < x
    ensures forall o {:trigger o in Nodes(s)} :: o in Nodes(s) && o != n ==> o.element != x
  {
    hide Tree, Sorted, Proper, Nodes, Order, Now;
    var whole, e := Nodes(s), Elements(Nodes(s));
    PartsOf(e, Now(whole), n, nil, s, whole);
    forall o {:trigger o in Order(s.l)} | o in Order(s.l) ensures o in Nodes(s.l) { NodesInOrder(s.l, o); }
    forall o {:trigger o in Order(s.r)} | o in Order(s.r) ensures o in Nodes(s.r) { NodesInOrder(s.r, o); }
    assert forall o {:trigger o in Order(s.l) + Order(s.r)} :: o in Order(s.l) + Order(s.r) ==> o in Order(s.l) || o in Order(s.r);
    SortedPart(whole, Nodes(s.l), Order(s.l));
    SortedPart(whole, whole - {n}, Order(s.l) + Order(s.r));
  }
}
