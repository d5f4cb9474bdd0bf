/**
 `_parse_callable_name`: the name of the first `def` or `class` met by
 `ast.walk`, which visits the tree breadth-first (a FIFO queue: pop the front,
 push the node's children at the back).
 */
module CallableName {
  import opened Wrappers
  import opened Syntax

  /** The walk of `ast.walk`, started from `queue`, stopped at the first definition. */
  function FirstDef(queue: seq<Node>): Option<string>
    decreases Weight(queue)
  {
    if queue == [] then None
    else if IsDef(queue[0]) then Some(DefName(queue[0]))
    else
      WeightAppend(queue[1..], queue[0].children);
      FirstDef(queue[1..] + queue[0].children)
  }

  /** `_parse_callable_name` on an already parsed tree. */
  function CallableNameOf(tree: Node): Option<string> {
    FirstDef([tree])
  }

  /** The first definition of one level, scanning left to right. */
  function Scan(level: seq<Node>): (r: Option<string>)
    ensures r == None <==> forall i :: 0 <= i < |level| ==> !IsDef(level[i])
    ensures r.Some? ==> exists i :: 0 <= i < |level| && IsDef(level[i]) && DefName(level[i]) == r.value
  {
    if level == [] then None
    else if IsDef(level[0]) then Some(DefName(level[0]))
    else
      var r := Scan(level[1..]);
      assert forall i :: 1 <= i < |level| ==> level[i] == level[1..][i - 1];
      r
  }

  /**
   Reference definition: search level by level, taking the leftmost
   definition of the first level that has one.
   */
  function ByLevels(level: seq<Node>): Option<string>
    decreases Weight(level)
  {
    if level == [] then None
    else if Scan(level).Some? then Scan(level)
    else
      WeightChildren(level);
      ByLevels(Children(level))
  }

  /** The nodes at depth `d` below `tree`, left to right. */
  function Level(tree: Node, d: nat): seq<Node> {
    if d == 0 then [tree] else Children(Level(tree, d - 1))
  }

  /** A definition somewhere in the tree rooted at `n` (`n` included). */
  predicate AnyDef(n: Node)
    decreases n, 1
  {
    IsDef(n) || AnyDefIn(n.children)
  }

  predicate AnyDefIn(q: seq<Node>)
    decreases q, 0
  {
    q != [] && (AnyDef(q[0]) || AnyDefIn(q[1..]))
  }

  /**
   Walking a queue `q + r`: either `q` itself holds a definition, or the walk
   continues with `r` followed by the children of `q`.
   */
  lemma {:induction false} FirstDefAppend(q: seq<Node>, r: seq<Node>)
    ensures FirstDef(q + r) == if Scan(q).Some? then Scan(q) else FirstDef(r + Children(q))
    decreases |q|
  {
    if q == [] {
      assert q + r == r;
      assert r + Children(q) == r;
    } else {
      var x := q[0];
      assert (q + r)[0] == x;
      if !IsDef(x) {
        assert (q + r)[1..] + x.children == q[1..] + (r + x.children);
        FirstDefAppend(q[1..], r + x.children);
        assert r + x.children + Children(q[1..]) == r + Children(q);
      }
    }
  }

  /** The walk of `ast.walk` agrees with the level-by-level search. */
  lemma {:induction false} FirstDefIsByLevels(q: seq<Node>)
    ensures FirstDef(q) == ByLevels(q)
    decreases Weight(q)
  {
    if q != [] {
      FirstDefAppend(q, []);
      assert q + [] == q;
      assert [] + Children(q) == Children(q);
      if Scan(q).None? {
        WeightChildren(q);
        FirstDefIsByLevels(Children(q));
      }
    }
  }

  lemma {:induction false} AnyDefInAppend(a: seq<Node>, b: seq<Node>)
    ensures AnyDefIn(a + b) == (AnyDefIn(a) || AnyDefIn(b))
  {
    if a == [] {
      assert a + b == b;
    } else {
      assert (a + b)[0] == a[0];
      assert (a + b)[1..] == a[1..] + b;
      AnyDefInAppend(a[1..], b);
    }
  }

  /** A forest holds a definition iff its top level or some deeper level does. */
  lemma {:induction false} AnyDefInLevels(q: seq<Node>)
    ensures AnyDefIn(q) == (Scan(q).Some? || AnyDefIn(Children(q)))
  {
    if q != [] {
      AnyDefInLevels(q[1..]);
      AnyDefInAppend(q[0].children, Children(q[1..]));
      assert Scan(q).Some? == (IsDef(q[0]) || Scan(q[1..]).Some?);
    }
  }

  /** The level-by-level search finds nothing iff the forest holds no definition. */
  lemma {:induction false} ByLevelsNone(q: seq<Node>)
    ensures ByLevels(q) == None <==> !AnyDefIn(q)
    decreases Weight(q)
  {
    if q != [] {
      AnyDefInLevels(q);
      if Scan(q).None? {
        WeightChildren(q);
        ByLevelsNone(Children(q));
      }
    }
  }

  /**
   `_parse_callable_name` returns `None` exactly when the tree holds no
   `def` or `class` at all (an `async def` does not count).
   */
  lemma CallableNameNone(tree: Node)
    ensures CallableNameOf(tree) == None <==> !AnyDef(tree)
  {
    FirstDefIsByLevels([tree]);
    ByLevelsNone([tree]);
    assert AnyDefIn([tree]) == AnyDef(tree) by {
      assert [tree][1..] == [];
    }
  }

  /**
   Level `e` is the first level at or below `from` that holds a definition,
   and its leftmost definition is named `n`.
   */
  ghost predicate FirstFoundAt(tree: Node, from: nat, e: nat, n: string) {
    && from <= e
    && Scan(Level(tree, e)) == Some(n)
    && forall j: nat :: from <= j < e ==> Scan(Level(tree, j)) == None
  }

  /**
   The level-by-level search started at depth `d` finds the leftmost
   definition of the first level at or below `d` that has one.
   */
  lemma {:induction false} ByLevelsFrom(tree: Node, d: nat, n: string)
    requires ByLevels(Level(tree, d)) == Some(n)
    ensures exists e: nat :: FirstFoundAt(tree, d, e, n)
    decreases Weight(Level(tree, d))
  {
    var l := Level(tree, d);
    if Scan(l).Some? {
      assert FirstFoundAt(tree, d, d, n);
    } else {
      WeightChildren(l);
      assert Level(tree, d + 1) == Children(l);
      ByLevelsFrom(tree, d + 1, n);
      var e: nat :| FirstFoundAt(tree, d + 1, e, n);
      FirstFoundEarlier(tree, d, e, n);
    }
  }

  /** A level without a definition can be added in front of the search. */
  lemma FirstFoundEarlier(tree: Node, d: nat, e: nat, n: string)
    requires Scan(Level(tree, d)) == None && FirstFoundAt(tree, d + 1, e, n)
    ensures FirstFoundAt(tree, d, e, n)
  {
    forall j: nat | d <= j < e ensures Scan(Level(tree, j)) == None {
      if j > d {
        assert d + 1 <= j < e;
      }
    }
  }

  /**
   `_parse_callable_name` returns the name of the leftmost definition on the
   shallowest level of the tree that holds any definition.
   */
  lemma CallableNameShallowest(tree: Node, n: string)
    requires CallableNameOf(tree) == Some(n)
    ensures exists d: nat :: FirstFoundAt(tree, 0, d, n)
  {
    FirstDefIsByLevels([tree]);
    assert Level(tree, 0) == [tree];
    ByLevelsFrom(tree, 0, n);
  }

  /**
   The walk is breadth-first: a definition one level down wins over one
   nested deeper that comes earlier in the source.
   */
  lemma ShallowerDefinitionWins(deep: string, shallow: string)
    ensures CallableNameOf(Node(Module, [Node(OtherNode, [Node(FunctionDef(deep), [])]), Node(ClassDef(shallow), [])]))
              == Some(shallow)
  {
    var inner := Node(FunctionDef(deep), []);
    var wrapper := Node(OtherNode, [inner]);
    var cls := Node(ClassDef(shallow), []);
    var root := Node(Module, [wrapper, cls]);
    assert [root][1..] + root.children == [wrapper, cls];
    assert FirstDef([root]) == FirstDef([wrapper, cls]);
    assert [wrapper, cls][1..] + wrapper.children == [cls, inner];
    assert FirstDef([wrapper, cls]) == FirstDef([cls, inner]);
  }

  /** An `async def` is passed over; the plain `def` inside it is found. */
  lemma AsyncDefinitionSkipped(outer: string, inner: string)
    ensures CallableNameOf(Node(Module, [Node(AsyncFunctionDef(outer), [Node(FunctionDef(inner), [])])])) == Some(inner)
  {
    var d := Node(FunctionDef(inner), []);
    var a := Node(AsyncFunctionDef(outer), [d]);
    var root := Node(Module, [a]);
    assert [root][1..] + root.children == [a];
    assert FirstDef([root]) == FirstDef([a]);
    assert [a][1..] + a.children == [d];
    assert FirstDef([a]) == FirstDef([d]);
  }
}
