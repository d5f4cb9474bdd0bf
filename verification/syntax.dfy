/**
 An abstract Python syntax tree: only the node kinds the core looks at are
 told apart. A real parser (`ast.parse`) is not modelled; the parser is a
 parameter of the operations that need one (see `Parser`).
 */
module Syntax {
  import opened Wrappers

  /** The `func` part of an `ast.Call`. */
  datatype Callee =
    | Name(id: string)          // `f(...)`
    | Attribute(attr: string)   // `obj.f(...)`
    | OtherCallee               // `f()(...)`, `xs[0](...)`, ...

  datatype Kind =
    | Module
    | FunctionDef(name: string)
    | AsyncFunctionDef(name: string)
    | ClassDef(name: string)
    | Call(callee: Callee)
    | OtherNode

  /** A node and its direct children in `ast.iter_child_nodes` order. */
  datatype Node = Node(kind: Kind, children: seq<Node>)

  /** `ast.parse`: `None` stands for a `SyntaxError`. */
  type Parser = string -> Option<Node>

  /**
   The node kinds `_parse_callable_name` accepts: `ast.FunctionDef` and
   `ast.ClassDef`. An `async def` is an `ast.AsyncFunctionDef` and is not one of them.
   */
  predicate IsDef(n: Node) {
    n.kind.FunctionDef? || n.kind.ClassDef?
  }

  function DefName(n: Node): string
    requires IsDef(n)
  {
    n.kind.name
  }

  /** Number of nodes in the forest `q`. */
  function Weight(q: seq<Node>): nat
    decreases q
  {
    if q == [] then 0 else 1 + Weight(q[0].children) + Weight(q[1..])
  }

  /** The children of every node of `q`, in order: the next level of a breadth-first walk. */
  function Children(q: seq<Node>): seq<Node>
  {
    if q == [] then [] else q[0].children + Children(q[1..])
  }

  lemma {:induction false} WeightAppend(a: seq<Node>, b: seq<Node>)
    ensures Weight(a + b) == Weight(a) + Weight(b)
  {
    if a != [] {
      assert (a + b)[0] == a[0];
      assert (a + b)[1..] == a[1..] + b;
      WeightAppend(a[1..], b);
    } else {
      assert a + b == b;
    }
  }

  lemma {:induction false} ChildrenAppend(a: seq<Node>, b: seq<Node>)
    ensures Children(a + b) == Children(a) + Children(b)
  {
    if a != [] {
      assert (a + b)[0] == a[0];
      assert (a + b)[1..] == a[1..] + b;
      ChildrenAppend(a[1..], b);
      assert Children(a + b) == a[0].children + (Children(a[1..]) + Children(b));
    } else {
      assert a + b == b;
    }
  }

  /** Descending one level removes exactly the nodes of the level itself. */
  lemma {:induction false} WeightChildren(q: seq<Node>)
    ensures Weight(Children(q)) + |q| == Weight(q)
  {
    if q != [] {
      WeightChildren(q[1..]);
      WeightAppend(q[0].children, Children(q[1..]));
    }
  }
}
