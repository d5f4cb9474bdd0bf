/**
 The two static denylist scans: `check_for_blacklisted_modules_used`, a
 textual search for import statements, and
 `check_for_blacklisted_functions_used`, a search of the syntax tree for calls
 of bare names.
 */
module Scanners {
  import opened Strings
  import opened Syntax

  /**
   The import syntax the module scan looks for: `import m` or `from m import`
   anywhere in the text. Nothing has to follow `m`, so `import osx` and
   `import os.path` both count as importing `os`.
   */
  predicate ImportsModule(source: string, m: string) {
    Contains(source, "import " + m) || Contains(source, "from " + m + " import")
  }

  /**
   `check_for_blacklisted_modules_used`: the denylist entries, in denylist
   order, whose import syntax occurs in the source. The result is a list,
   possibly empty, and never `None`.
   */
  function ScanModules(source: string, denylist: seq<string>): (r: seq<string>)
    ensures forall m :: m in r <==> m in denylist && ImportsModule(source, m)
    ensures |r| <= |denylist|
  {
    if denylist == [] then []
    else
      var rest := ScanModules(source, denylist[1..]);
      assert forall m :: m in denylist <==> m == denylist[0] || m in denylist[1..];
      if ImportsModule(source, denylist[0]) then [denylist[0]] + rest else rest
  }

  /** `child` is a call of the bare name `f` (`f(...)`, not `obj.f(...)`). */
  predicate IsCallOf(child: Node, f: string) {
    child.kind == Call(Name(f))
  }

  /** The name one child contributes when it is a call of a denylisted bare name. */
  function Hit(child: Node, denylist: seq<string>): set<string> {
    if child.kind.Call? && child.kind.callee.Name? && child.kind.callee.id in denylist
    then {child.kind.callee.id}
    else {}
  }

  /**
   `find_function_calls(node, found)`: what the recursive helper adds to
   `found` for `node`. Only the children of `node` are tested, then each child
   is searched in turn, so `node` itself is never tested.
   */
  function FoundBelow(node: Node, denylist: seq<string>): set<string>
    decreases node, 1
  {
    FoundAmong(node.children, denylist)
  }

  function FoundAmong(children: seq<Node>, denylist: seq<string>): set<string>
    decreases children, 0
  {
    if children == [] then {}
    else Hit(children[0], denylist) + FoundBelow(children[0], denylist) + FoundAmong(children[1..], denylist)
  }

  /** Reference: some node strictly below `node` is a call of the bare name `f`. */
  ghost predicate CallsBelow(node: Node, f: string)
    decreases node
  {
    exists i :: 0 <= i < |node.children| && (IsCallOf(node.children[i], f) || CallsBelow(node.children[i], f))
  }

  /**
   `check_for_blacklisted_functions_used` on a parsed tree: the set of
   denylisted names that are called as bare names somewhere in the tree.
   Python returns this set as a list, in set order, so no name appears twice.
   */
  function ScanFunctions(tree: Node, denylist: seq<string>): set<string> {
    FoundBelow(tree, denylist)
  }

  lemma {:induction false} FoundAmongIff(children: seq<Node>, denylist: seq<string>, f: string)
    ensures f in FoundAmong(children, denylist) <==>
              f in denylist && exists i :: 0 <= i < |children| && (IsCallOf(children[i], f) || CallsBelow(children[i], f))
    decreases children
  {
    if children != [] {
      var c := children[0];
      FoundAmongIff(c.children, denylist, f);
      FoundAmongIff(children[1..], denylist, f);
      assert f in Hit(c, denylist) <==> f in denylist && IsCallOf(c, f);
      assert CallsBelow(c, f) <==> exists i :: 0 <= i < |c.children| && (IsCallOf(c.children[i], f) || CallsBelow(c.children[i], f));
      if exists i :: 0 <= i < |children| && (IsCallOf(children[i], f) || CallsBelow(children[i], f)) {
        var i :| 0 <= i < |children| && (IsCallOf(children[i], f) || CallsBelow(children[i], f));
        if i > 0 {
          assert children[1..][i - 1] == children[i];
        }
      }
    }
  }

  /**
   The function scan reports exactly the denylisted names that some call node
   below the root invokes as a bare name. Calls through an attribute, such as
   `os.system(...)`, never make `system` reported.
   */
  lemma ScanFunctionsIff(tree: Node, denylist: seq<string>, f: string)
    ensures f in ScanFunctions(tree, denylist) <==> f in denylist && CallsBelow(tree, f)
  {
    FoundAmongIff(tree.children, denylist, f);
  }

  /**
   The module scan matches text, not names: any name that extends `m`, such
   as `osx` or `os.path` for `os`, makes `m` reported.
   */
  lemma LongerNameReported(before: string, m: string, rest: string, after: string)
    ensures ImportsModule(before + "import " + m + rest + after, m)
  {
    var s := before + "import " + m + rest + after;
    var p := "import " + m;
    assert s == before + p + (rest + after);
    assert s[|before|..|before| + |p|] == p;
    assert OccursAt(s, p, |before|);
  }

  /** `os.system()` is not reported for `system`; `system()` is. */
  lemma BareNameCallsOnly(f: string)
    ensures ScanFunctions(Node(Module, [Node(Call(Attribute(f)), [])]), [f]) == {}
    ensures ScanFunctions(Node(Module, [Node(Call(Name(f)), [])]), [f]) == {f}
  {
    var viaAttribute := Node(Call(Attribute(f)), []);
    var viaName := Node(Call(Name(f)), []);
    assert FoundBelow(viaAttribute, [f]) == {} && FoundBelow(viaName, [f]) == {};
    assert [viaAttribute][1..] == [] && [viaName][1..] == [];
    assert FoundAmong([viaAttribute], [f]) == Hit(viaAttribute, [f]) == {};
    assert FoundAmong([viaName], [f]) == Hit(viaName, [f]) == {f};
  }
}
