/** Binary trees on the heap, as shapes and as pointers, and how top-down splaying takes a tree apart and puts it
    together again without changing the order of its nodes. */
module SplayShapes {

  class Bnode {
    var element: int
    var left: Bnode?
    var right: Bnode?

    constructor ()
      ensures left == null && right == null
    {
      left, right := null, null;
    }
  }

  // ---------------------------------------------------------------------------
  // Shapes

  datatype Shape = Nil | Fork(l: Shape, node: Bnode, r: Shape)

  ghost function Nodes(t: Shape): set<Bnode> {
    if t.Nil? then {} else Nodes(t.l) + {t.node} + Nodes(t.r)
  }

  /** The nodes from left to right. */
  ghost function Order(t: Shape): seq<Bnode> {
    if t.Nil? then [] else Order(t.l) + [t.node] + Order(t.r)
  }

  lemma {:induction false} NodesInOrder(t: Shape, o: Bnode)
    ensures o in Order(t) <==> o in Nodes(t)
  {
    if t.Fork? {
      NodesInOrder(t.l, o);
      NodesInOrder(t.r, o);
    }
  }

  /** What a side of the tree looks like while it is taken apart: nodes along the pointers of one side, each
      with its subtree on the other. */
  datatype Spine = End | Link(node: Bnode, side: Shape, rest: Spine)

  ghost function Sides(s: Spine): set<Bnode> {
    if s.End? then {} else Nodes(s.side) + Sides(s.rest)
  }

  ghost function Along(s: Spine, n: Bnode, side: Shape): Spine {
    if s.End? then Link(n, side, End) else s.(rest := Along(s.rest, n, side))
  }

  ghost function PlugRight(s: Spine, t: Shape): Shape {
    if s.End? then t else Fork(s.side, s.node, PlugRight(s.rest, t))
  }

  ghost function PlugLeft(s: Spine, t: Shape): Shape {
    if s.End? then t else Fork(PlugLeft(s.rest, t), s.node, s.side)
  }

  ghost function RightOrder(s: Spine): seq<Bnode> {
    Order(PlugRight(s, Nil))
  }

  ghost function LeftOrder(s: Spine): seq<Bnode> {
    Order(PlugLeft(s, Nil))
  }

  lemma {:induction false} PlugRightOrder(s: Spine, t: Shape)
    ensures Order(PlugRight(s, t)) == RightOrder(s) + Order(t)
  {
    if s.Link? { PlugRightOrder(s.rest, t); }
  }

  lemma {:induction false} PlugLeftOrder(s: Spine, t: Shape)
    ensures Order(PlugLeft(s, t)) == Order(t) + LeftOrder(s)
  {
    if s.Link? { PlugLeftOrder(s.rest, t); }
  }

  lemma {:induction false} AlongPlugs(s: Spine, n: Bnode, side: Shape, t: Shape)
    ensures PlugRight(Along(s, n, side), t) == PlugRight(s, Fork(side, n, t))
    ensures PlugLeft(Along(s, n, side), t) == PlugLeft(s, Fork(t, n, side))
    ensures Sides(Along(s, n, side)) == Sides(s) + Nodes(side)
  {
    if s.Link? { AlongPlugs(s.rest, n, side, t); }
  }

  // ---------------------------------------------------------------------------
  // Pointers as values

  datatype Links = Links(left: map<Bnode, Bnode?>, right: map<Bnode, Bnode?>)

  ghost function Now(nodes: set<Bnode>): Links
    reads nodes`left, nodes`right
  {
    Links(map n | n in nodes :: n.left, map n | n in nodes :: n.right)
  }

  lemma NowIs(nodes: set<Bnode>, w: Links)
    requires w.left.Keys == nodes == w.right.Keys
    requires forall o {:trigger o in nodes} :: o in nodes ==> o.left == w.left[o] && o.right == w.right[o]
    ensures Now(nodes) == w
  {
  }

  ghost predicate Tree(v: Links, n: Bnode?, nil: Bnode, t: Shape) {
    match t
    case Nil => n == nil
    case Fork(l, o, r) => n == o && o in v.left && o in v.right && Tree(v, v.left[o], nil, l) && Tree(v, v.right[o], nil, r)
  }

  lemma {:induction false} SameTree(v: Links, w: Links, n: Bnode?, nil: Bnode, t: Shape)
    requires Tree(v, n, nil, t)
    requires forall o {:trigger o in Nodes(t)} :: o in Nodes(t) && o in v.left && o in v.right ==>
               o in w.left && o in w.right && w.left[o] == v.left[o] && w.right[o] == v.right[o]
    ensures Tree(w, n, nil, t)
  {
    if t.Fork? {
      assert Nodes(t.l) <= Nodes(t) && Nodes(t.r) <= Nodes(t) && t.node in Nodes(t);
      SameTree(v, w, v.left[t.node], nil, t.l);
      SameTree(v, w, v.right[t.node], nil, t.r);
    }
  }

  lemma LeftElsewhere(v: Links, o: Bnode, x: Bnode?, n: Bnode?, nil: Bnode, t: Shape)
    requires Tree(v, n, nil, t) && o !in Nodes(t)
    ensures Tree(v.(left := v.left[o := x]), n, nil, t)
  {
    SameTree(v, v.(left := v.left[o := x]), n, nil, t);
  }

  lemma RightElsewhere(v: Links, o: Bnode, x: Bnode?, n: Bnode?, nil: Bnode, t: Shape)
    requires Tree(v, n, nil, t) && o !in Nodes(t)
    ensures Tree(v.(right := v.right[o := x]), n, nil, t)
  {
    SameTree(v, v.(right := v.right[o := x]), n, nil, t);
  }

  /** From `m` along right pointers to `last`. */
  ghost predicate RightSpine(v: Links, m: Bnode, last: Bnode, nil: Bnode, s: Spine) {
    match s
    case End => m == last
    case Link(c, side, rest) =>
      m != last && m in v.right && v.right[m] == c && c in v.left && Tree(v, v.left[c], nil, side) && RightSpine(v, c, last, nil, rest)
  }

  ghost predicate LeftSpine(v: Links, m: Bnode, last: Bnode, nil: Bnode, s: Spine) {
    match s
    case End => m == last
    case Link(c, side, rest) =>
      m != last && m in v.left && v.left[m] == c && c in v.right && Tree(v, v.right[c], nil, side) && LeftSpine(v, c, last, nil, rest)
  }

  /** After `last.right := n` the spine goes on to `n`. */
  lemma {:induction false} ExtendRight(v: Links, m: Bnode, last: Bnode, n: Bnode, nil: Bnode, s: Spine, side: Shape)
    requires RightSpine(v, m, last, nil, s) && n in v.left && Tree(v, v.left[n], nil, side)
    requires last !in Sides(s) && last !in Nodes(side) && n != last && n != m && Passes(s, n)
    ensures RightSpine(v.(right := v.right[last := n]), m, n, nil, Along(s, n, side))
  {
    var w := v.(right := v.right[last := n]);
    if s.End? {
      SameTree(v, w, v.left[n], nil, side);
    } else {
      SameTree(v, w, v.left[s.node], nil, s.side);
      ExtendRight(v, s.node, last, n, nil, s.rest, side);
    }
  }

  /** `n` is not on the spine. */
  ghost predicate Passes(s: Spine, n: Bnode) {
    s.Link? ==> s.node != n && Passes(s.rest, n)
  }

  /** After `last.right := n` for a finished tree, everything hangs at `m` as one tree. */
  lemma {:induction false} CloseRight(v: Links, m: Bnode, last: Bnode, n: Bnode?, nil: Bnode, s: Spine, t: Shape)
    requires RightSpine(v, m, last, nil, s) && Tree(v, n, nil, t)
    requires last !in Sides(s) && last !in Nodes(t)
    ensures var w := v.(right := v.right[last := n]); m in w.right && Tree(w, w.right[m], nil, PlugRight(s, t))
  {
    var w := v.(right := v.right[last := n]);
    if s.End? {
      SameTree(v, w, n, nil, t);
    } else {
      SameTree(v, w, v.left[s.node], nil, s.side);
      CloseRight(v, s.node, last, n, nil, s.rest, t);
    }
  }

  lemma {:induction false} ExtendLeft(v: Links, m: Bnode, last: Bnode, n: Bnode, nil: Bnode, s: Spine, side: Shape)
    requires LeftSpine(v, m, last, nil, s) && n in v.right && Tree(v, v.right[n], nil, side)
    requires last !in Sides(s) && last !in Nodes(side) && n != last && n != m && Passes(s, n)
    ensures LeftSpine(v.(left := v.left[last := n]), m, n, nil, Along(s, n, side))
  {
    var w := v.(left := v.left[last := n]);
    if s.End? {
      SameTree(v, w, v.right[n], nil, side);
    } else {
      SameTree(v, w, v.right[s.node], nil, s.side);
      ExtendLeft(v, s.node, last, n, nil, s.rest, side);
    }
  }

  lemma {:induction false} CloseLeft(v: Links, m: Bnode, last: Bnode, n: Bnode?, nil: Bnode, s: Spine, t: Shape)
    requires LeftSpine(v, m, last, nil, s) && Tree(v, n, nil, t)
    requires last !in Sides(s) && last !in Nodes(t)
    ensures var w := v.(left := v.left[last := n]); m in w.left && Tree(w, w.left[m], nil, PlugLeft(s, t))
  {
    var w := v.(left := v.left[last := n]);
    if s.End? {
      SameTree(v, w, n, nil, t);
    } else {
      SameTree(v, w, v.right[s.node], nil, s.side);
      CloseLeft(v, s.node, last, n, nil, s.rest, t);
    }
  }

  ghost function Members(s: Spine): set<Bnode> {
    if s.End? then {} else {s.node} + Nodes(s.side) + Members(s.rest)
  }

  lemma {:induction false} MembersFacts(s: Spine, n: Bnode, side: Shape)
    ensures Sides(s) <= Members(s) && (n !in Members(s) ==> Passes(s, n))
    ensures Members(Along(s, n, side)) == Members(s) + {n} + Nodes(side)
  {
    if s.Link? { MembersFacts(s.rest, n, side); }
  }

  lemma {:induction false} SameRightSpine(v: Links, w: Links, m: Bnode, last: Bnode, nil: Bnode, s: Spine)
    requires RightSpine(v, m, last, nil, s)
    requires forall o {:trigger o in Members(s)} :: o in Members(s) && o in v.left ==> o in w.left && w.left[o] == v.left[o]
    requires forall o {:trigger o in Members(s)} :: o in {m} + Members(s) && o in v.right ==> o in w.right && w.right[o] == v.right[o]
    ensures RightSpine(w, m, last, nil, s)
  {
    if s.Link? {
      assert Nodes(s.side) <= Members(s) && Members(s.rest) <= Members(s) && s.node in Members(s);
      SameTree(v, w, v.left[s.node], nil, s.side);
      assert m in Members(s) || m !in Members(s);
      SameRightSpine(v, w, s.node, last, nil, s.rest);
    }
  }

  lemma {:induction false} SameLeftSpine(v: Links, w: Links, m: Bnode, last: Bnode, nil: Bnode, s: Spine)
    requires LeftSpine(v, m, last, nil, s)
    requires forall o {:trigger o in Members(s)} :: o in Members(s) && o in v.right ==> o in w.right && w.right[o] == v.right[o]
    requires forall o {:trigger o in Members(s)} :: o in {m} + Members(s) && o in v.left ==> o in w.left && w.left[o] == v.left[o]
    ensures LeftSpine(w, m, last, nil, s)
  {
    if s.Link? {
      assert Nodes(s.side) <= Members(s) && Members(s.rest) <= Members(s) && s.node in Members(s);
      SameTree(v, w, v.right[s.node], nil, s.side);
      assert m in Members(s) || m !in Members(s);
      SameLeftSpine(v, w, s.node, last, nil, s.rest);
    }
  }

  lemma {:induction false} NodesOfPlug(s: Spine, t: Shape)
    ensures Nodes(PlugRight(s, t)) == Members(s) + Nodes(t) == Nodes(PlugLeft(s, t))
  {
    if s.Link? { NodesOfPlug(s.rest, t); }
  }

  // ---------------------------------------------------------------------------
  // The tree taken apart

  /** No node occurs twice. */
  ghost predicate Proper(t: Shape) {
    t.Fork? ==> t.node !in Nodes(t.l) + Nodes(t.r) && Nodes(t.l) !! Nodes(t.r) && Proper(t.l) && Proper(t.r)
  }

  /** The tree taken apart: a left spine from the header to `low`, the tree that is left, and a right spine from
      the header to `high`. */
  datatype Parts = Parts(header: Bnode, low: Bnode, ls: Spine, cur: Shape, rs: Spine, high: Bnode)

  ghost predicate Pointers(v: Links, n: Bnode, nil: Bnode, p: Parts) {
    && Tree(v, n, nil, p.cur) && RightSpine(v, p.header, p.low, nil, p.ls) && LeftSpine(v, p.header, p.high, nil, p.rs)
    && p.header in v.left && p.header in v.right
  }

  ghost predicate Separate(p: Parts) {
    && p.cur.Fork? && Proper(p.cur)
    && Members(p.ls) !! Nodes(p.cur) && Members(p.ls) !! Members(p.rs) && Nodes(p.cur) !! Members(p.rs)
    && p.header !in Members(p.ls) + Nodes(p.cur) + Members(p.rs)
    && p.low in {p.header} + Members(p.ls) && p.low !in Sides(p.ls) && p.high in {p.header} + Members(p.rs) && p.high !in Sides(p.rs)
  }

  ghost function Whole(p: Parts): seq<Bnode> {
    RightOrder(p.ls) + Order(p.cur) + LeftOrder(p.rs)
  }

  /** The root of what is left goes to the right spine, with its right subtree. */
  ghost function LinkedRight(p: Parts): Parts
    requires p.cur.Fork?
  {
    p.(cur := p.cur.l, rs := Along(p.rs, p.cur.node, p.cur.r), high := p.cur.node)
  }

  lemma LinkRightSeparate(p: Parts)
    requires Separate(p) && p.cur.l.Fork?
    ensures Separate(LinkedRight(p))
  {
    var n, side := p.cur.node, p.cur.r;
    MembersFacts(p.rs, n, side);
    AlongPlugs(p.rs, n, side, Nil);
    assert Nodes(p.cur.l) <= Nodes(p.cur) && Nodes(side) <= Nodes(p.cur) && n in Nodes(p.cur);
  }

  lemma LinkRightWhole(p: Parts)
    requires p.cur.Fork?
    ensures Whole(LinkedRight(p)) == Whole(p)
    ensures LeftOrder(LinkedRight(p).rs) == [p.cur.node] + Order(p.cur.r) + LeftOrder(p.rs)
  {
    var n, side := p.cur.node, p.cur.r;
    AlongPlugs(p.rs, n, side, Nil);
    PlugLeftOrder(p.rs, Fork(Nil, n, side));
    assert Order(Fork(Nil, n, side)) == [n] + Order(side);
  }

  lemma LinkRightPointers(v: Links, n: Bnode, nil: Bnode, p: Parts)
    requires Pointers(v, n, nil, p) && Separate(p) && p.cur.l.Fork?
    ensures Pointers(v.(left := v.left[p.high := n]), p.cur.l.node, nil, LinkedRight(p))
  {
    var w := v.(left := v.left[p.high := n]);
    MembersFacts(p.ls, n, p.cur.r);
    MembersFacts(p.rs, n, p.cur.r);
    assert p.high !in Nodes(p.cur) && p.high !in Members(p.ls);
    SameTree(v, w, v.left[n], nil, p.cur.l);
    SameRightSpine(v, w, p.header, p.low, nil, p.ls);
    ExtendLeft(v, p.header, p.high, n, nil, p.rs, p.cur.r);
  }

  /** The root of what is left goes to the left spine, with its left subtree. */
  ghost function LinkedLeft(p: Parts): Parts
    requires p.cur.Fork?
  {
    p.(cur := p.cur.r, ls := Along(p.ls, p.cur.node, p.cur.l), low := p.cur.node)
  }

  lemma LinkLeftSeparate(p: Parts)
    requires Separate(p) && p.cur.r.Fork?
    ensures Separate(LinkedLeft(p))
  {
    var n, side := p.cur.node, p.cur.l;
    MembersFacts(p.ls, n, side);
    AlongPlugs(p.ls, n, side, Nil);
    assert Nodes(p.cur.r) <= Nodes(p.cur) && Nodes(side) <= Nodes(p.cur) && n in Nodes(p.cur);
  }

  lemma LinkLeftWhole(p: Parts)
    requires p.cur.Fork?
    ensures Whole(LinkedLeft(p)) == Whole(p)
    ensures RightOrder(LinkedLeft(p).ls) == RightOrder(p.ls) + Order(p.cur.l) + [p.cur.node]
  {
    var n, side := p.cur.node, p.cur.l;
    AlongPlugs(p.ls, n, side, Nil);
    PlugRightOrder(p.ls, Fork(side, n, Nil));
    assert Order(Fork(side, n, Nil)) == Order(side) + [n];
  }

  lemma LinkLeftPointers(v: Links, n: Bnode, nil: Bnode, p: Parts)
    requires Pointers(v, n, nil, p) && Separate(p) && p.cur.r.Fork?
    ensures Pointers(v.(right := v.right[p.low := n]), p.cur.r.node, nil, LinkedLeft(p))
  {
    var w := v.(right := v.right[p.low := n]);
    MembersFacts(p.ls, n, p.cur.l);
    MembersFacts(p.rs, n, p.cur.l);
    assert p.low !in Nodes(p.cur) && p.low !in Members(p.rs);
    SameTree(v, w, v.right[n], nil, p.cur.r);
    SameLeftSpine(v, w, p.header, p.high, nil, p.rs);
    ExtendRight(v, p.header, p.low, n, nil, p.ls, p.cur.l);
  }

  /** Rotation with the left child. */
  ghost function TurnedRight(t: Shape): Shape
    requires t.Fork? && t.l.Fork?
  {
    Fork(t.l.l, t.l.node, Fork(t.l.r, t.node, t.r))
  }

  lemma TurnRight(v: Links, n: Bnode, nil: Bnode, t: Shape)
    requires Tree(v, n, nil, t) && t.Fork? && t.l.Fork? && Proper(t)
    ensures v.left[n] == t.l.node && t.l.node in v.right
    ensures var k1 := t.l.node; Tree(Links(v.left[n := v.right[k1]], v.right[k1 := n]), k1, nil, TurnedRight(t))
    ensures Proper(TurnedRight(t)) && Nodes(TurnedRight(t)) == Nodes(t) && Order(TurnedRight(t)) == Order(t)
  {
    var k1 := t.l.node;
    var w := Links(v.left[n := v.right[k1]], v.right[k1 := n]);
    SameTree(v, w, v.left[k1], nil, t.l.l);
    SameTree(v, w, v.right[k1], nil, t.l.r);
    SameTree(v, w, v.right[n], nil, t.r);
  }

  /** Rotation with the right child. */
  ghost function TurnedLeft(t: Shape): Shape
    requires t.Fork? && t.r.Fork?
  {
    Fork(Fork(t.l, t.node, t.r.l), t.r.node, t.r.r)
  }

  lemma TurnLeft(v: Links, n: Bnode, nil: Bnode, t: Shape)
    requires Tree(v, n, nil, t) && t.Fork? && t.r.Fork? && Proper(t)
    ensures v.right[n] == t.r.node && t.r.node in v.left
    ensures var k2 := t.r.node; Tree(Links(v.left[k2 := n], v.right[n := v.left[k2]]), k2, nil, TurnedLeft(t))
    ensures Proper(TurnedLeft(t)) && Nodes(TurnedLeft(t)) == Nodes(t) && Order(TurnedLeft(t)) == Order(t)
  {
    var k2 := t.r.node;
    var w := Links(v.left[k2 := n], v.right[n := v.left[k2]]);
    SameTree(v, w, v.right[k2], nil, t.r.r);
    SameTree(v, w, v.left[k2], nil, t.r.l);
    SameTree(v, w, v.left[n], nil, t.l);
  }

  /** What is left may turn without the spines. */
  lemma TurnPointers(v: Links, w: Links, n: Bnode, nil: Bnode, p: Parts, cur: Shape)
    requires Pointers(v, n, nil, p) && Separate(p) && Nodes(cur) == Nodes(p.cur)
    requires forall o {:trigger o in v.left} :: o in v.left && o !in Nodes(p.cur) ==> o in w.left && w.left[o] == v.left[o]
    requires forall o {:trigger o in v.right} :: o in v.right && o !in Nodes(p.cur) ==> o in w.right && w.right[o] == v.right[o]
    requires cur.Fork? && Tree(w, cur.node, nil, cur)
    ensures Pointers(w, cur.node, nil, p.(cur := cur))
  {
    SameRightSpine(v, w, p.header, p.low, nil, p.ls);
    SameLeftSpine(v, w, p.header, p.high, nil, p.rs);
  }

  /** Put together again. */
  ghost function Closed(p: Parts): Shape
    requires p.cur.Fork?
  {
    Fork(PlugRight(p.ls, p.cur.l), p.cur.node, PlugLeft(p.rs, p.cur.r))
  }

  lemma ClosedOrder(p: Parts)
    requires p.cur.Fork?
    ensures Order(Closed(p)) == Whole(p) && Nodes(Closed(p)) == Members(p.ls) + Nodes(p.cur) + Members(p.rs)
  {
    PlugRightOrder(p.ls, p.cur.l);
    PlugLeftOrder(p.rs, p.cur.r);
    NodesOfPlug(p.ls, p.cur.l);
    NodesOfPlug(p.rs, p.cur.r);
  }

  /** The last subtrees go to the ends of the spines. */
  lemma SpinesClosed(v: Links, n: Bnode, nil: Bnode, p: Parts) returns (x: Links)
    requires Pointers(v, n, nil, p) && Separate(p)
    ensures n in v.left && n in v.right && x == Links(v.left[p.high := v.right[n]], v.right[p.low := v.left[n]])
    ensures p.header in x.left && Tree(x, x.left[p.header], nil, PlugLeft(p.rs, p.cur.r))
    ensures p.header in x.right && Tree(x, x.right[p.header], nil, PlugRight(p.ls, p.cur.l))
  {
    hide RightSpine, LeftSpine, Sides;
    var u := v.(right := v.right[p.low := v.left[n]]);
    x := u.(left := u.left[p.high := v.right[n]]);
    CloseRight(v, p.header, p.low, v.left[n], nil, p.ls, p.cur.l);
    SameLeftSpine(v, u, p.header, p.high, nil, p.rs);
    RightElsewhere(v, p.low, v.left[n], v.right[n], nil, p.cur.r);
    CloseLeft(u, p.header, p.high, v.right[n], nil, p.rs, p.cur.r);
    NodesOfPlug(p.ls, p.cur.l);
    LeftElsewhere(u, p.high, v.right[n], u.right[p.header], nil, PlugRight(p.ls, p.cur.l));
  }

  /** The last four assignments. */
  lemma ClosedPointers(v: Links, n: Bnode, nil: Bnode, p: Parts) returns (x: Links, w: Links)
    requires Pointers(v, n, nil, p) && Separate(p)
    ensures n in v.left && n in v.right && x == Links(v.left[p.high := v.right[n]], v.right[p.low := v.left[n]])
    ensures p.header in x.left && p.header in x.right
    ensures w == Links(x.left[n := x.right[p.header]], x.right[n := x.left[p.header]])
    ensures Tree(w, n, nil, Closed(p))
  {
    hide RightSpine, LeftSpine, Sides;
    x := SpinesClosed(v, n, nil, p);
    var y := x.(left := x.left[n := x.right[p.header]]);
    w := y.(right := y.right[n := x.left[p.header]]);
    var a, b := PlugRight(p.ls, p.cur.l), PlugLeft(p.rs, p.cur.r);
    NodesOfPlug(p.ls, p.cur.l);
    NodesOfPlug(p.rs, p.cur.r);
    LeftElsewhere(x, n, x.right[p.header], x.right[p.header], nil, a);
    LeftElsewhere(x, n, x.right[p.header], x.left[p.header], nil, b);
    RightElsewhere(y, n, x.left[p.header], x.right[p.header], nil, a);
    RightElsewhere(y, n, x.left[p.header], x.left[p.header], nil, b);
  }
}
