/**
 * An abstract Python syntax tree: the node kinds the entity extractor tests
 * for, each node's own attributes as the parser reports them, and its child
 * nodes in `ast.iter_child_nodes` order. `ast.walk` visits the tree breadth
 * first; it is shown here to visit every node of the tree exactly once.
 */
module PythonAst {
  import opened Wrappers

  datatype NodeKind =
    | FunctionDef
    | AsyncFunctionDef
    | ClassDef
    | Import(names: seq<string>)
    | ImportFrom(moduleName: Option<string>)
    | OtherNode

  /**
   * A node. `docstring` is what `ast.get_docstring` returns for it and
   * `decorators` the `ast.unparse` text of each decorator expression; both come
   * from the parser and are taken as given.
   */
  datatype Node = Node(
    kind: NodeKind,
    name: string,
    docstring: Option<string>,
    lineno: int,
    endLineno: Option<int>,
    decorators: seq<string>,
    children: seq<Node>)

  /** Number of nodes in a tree. */
  function Size(n: Node): (k: nat)
    decreases n, 1
    ensures k >= 1
  {
    1 + SizeAll(n.children)
  }

  function SizeAll(ns: seq<Node>): nat
    decreases ns, 0
  {
    if ns == [] then 0 else Size(ns[0]) + SizeAll(ns[1..])
  }

  lemma {:induction false} SizeAllAppend(a: seq<Node>, b: seq<Node>)
    ensures SizeAll(a + b) == SizeAll(a) + SizeAll(b)
  {
    if a == [] {
      assert a + b == b;
    } else {
      assert (a + b)[1..] == a[1..] + b;
      SizeAllAppend(a[1..], b);
    }
  }

  /**
   * `ast.walk` from a queue of pending nodes: take the first, yield it and
   * queue its children at the back.
   */
  function WalkFrom(queue: seq<Node>): seq<Node>
    decreases SizeAll(queue)
  {
    if queue == [] then []
    else
      SizeAllAppend(queue[1..], queue[0].children);
      assert SizeAll(queue) == Size(queue[0]) + SizeAll(queue[1..]);
      [queue[0]] + WalkFrom(queue[1..] + queue[0].children)
  }

  function Walk(n: Node): seq<Node> {
    WalkFrom([n])
  }

  /** The nodes of a tree in pre-order: the reference enumeration of "every node". */
  function Preorder(n: Node): seq<Node>
    decreases n, 1
  {
    [n] + PreorderAll(n.children)
  }

  function PreorderAll(ns: seq<Node>): seq<Node>
    decreases ns, 0
  {
    if ns == [] then [] else Preorder(ns[0]) + PreorderAll(ns[1..])
  }

  lemma {:induction false} PreorderAllAppend(a: seq<Node>, b: seq<Node>)
    ensures PreorderAll(a + b) == PreorderAll(a) + PreorderAll(b)
  {
    if a == [] {
      assert a + b == b;
    } else {
      assert (a + b)[1..] == a[1..] + b;
      PreorderAllAppend(a[1..], b);
    }
  }

  /** Breadth-first walking of a queue visits the same nodes as the pre-orders of its trees. */
  lemma {:induction false} WalkFromIsPermutation(queue: seq<Node>)
    ensures multiset(WalkFrom(queue)) == multiset(PreorderAll(queue))
    decreases SizeAll(queue)
  {
    if queue != [] {
      var x, rest := queue[0], queue[1..];
      SizeAllAppend(rest, x.children);
      assert SizeAll(queue) == Size(x) + SizeAll(rest);
      var later := WalkFrom(rest + x.children);
      WalkFromIsPermutation(rest + x.children);
      PreorderAllAppend(rest, x.children);
      var r, c := PreorderAll(rest), PreorderAll(x.children);
      assert multiset(later) == multiset(r) + multiset(c);
      assert WalkFrom(queue) == [x] + later;
      assert PreorderAll(queue) == [x] + c + r;
      assert multiset([x] + c + r) == multiset{x} + multiset(c) + multiset(r);
    }
  }

  /** `ast.walk(n)` visits every node of the tree under `n` exactly once. */
  lemma WalkIsPermutation(n: Node)
    ensures multiset(Walk(n)) == multiset(Preorder(n))
    ensures |Walk(n)| == Size(n)
  {
    WalkFromIsPermutation([n]);
    assert PreorderAll([n]) == Preorder(n) + PreorderAll([]);
    PreorderSize(n);
    assert |Walk(n)| == |multiset(Walk(n))|;
  }

  lemma {:induction false} PreorderSize(n: Node)
    ensures |Preorder(n)| == Size(n)
    decreases n, 1
  {
    PreorderAllSize(n.children);
  }

  lemma {:induction false} PreorderAllSize(ns: seq<Node>)
    ensures |PreorderAll(ns)| == SizeAll(ns)
    decreases ns, 0
  {
    if ns != [] {
      PreorderSize(ns[0]);
      PreorderAllSize(ns[1..]);
    }
  }

  /**
   * The concatenation of `f` over a sequence of nodes, in order: how the
   * extractor's loops accumulate a list while visiting nodes.
   */
  function FlatMap<T>(ns: seq<Node>, f: Node -> seq<T>): seq<T> {
    if ns == [] then [] else FlatMap(ns[..|ns| - 1], f) + f(ns[|ns| - 1])
  }

  lemma {:induction false} FlatMapAppend<T>(a: seq<Node>, b: seq<Node>, f: Node -> seq<T>)
    ensures FlatMap(a + b, f) == FlatMap(a, f) + FlatMap(b, f)
  {
    if b == [] {
      assert a + b == a;
    } else {
      var b' := b[..|b| - 1];
      assert (a + b)[..|a + b| - 1] == a + b';
      FlatMapAppend(a, b', f);
    }
  }

  /** Taking the same node out of two equal multisets leaves equal multisets. */
  lemma RemoveMatching(a': seq<Node>, x: Node, b: seq<Node>, k: nat)
    requires k < |b| && b[k] == x
    requires multiset(a' + [x]) == multiset(b)
    ensures multiset(a') == multiset(b[..k] + b[k + 1..])
  {
    assert b == b[..k] + [x] + b[k + 1..];
    assert multiset(b) == multiset(b[..k] + b[k + 1..]) + multiset{x};
    assert multiset(a' + [x]) == multiset(a') + multiset{x};
    assert multiset(a') == multiset(a' + [x]) - multiset{x};
    assert multiset(b[..k] + b[k + 1..]) == multiset(b) - multiset{x};
  }

  /** Moving the middle of three sequences to the end does not change their multiset. */
  lemma MultisetMiddle<T>(p: seq<T>, q: seq<T>, r: seq<T>)
    ensures multiset(p + q + r) == multiset(p + r) + multiset(q)
  {
    assert multiset(p + q + r) == multiset(p) + multiset(q) + multiset(r);
    assert multiset(p + r) == multiset(p) + multiset(r);
  }

  /** Gathering over `b1 + [x] + b2` is gathering over `b1`, then `x`, then `b2`. */
  lemma FlatMapAround<T>(b1: seq<Node>, x: Node, b2: seq<Node>, f: Node -> seq<T>)
    ensures FlatMap(b1 + [x] + b2, f) == FlatMap(b1, f) + f(x) + FlatMap(b2, f)
    ensures FlatMap(b1 + b2, f) == FlatMap(b1, f) + FlatMap(b2, f)
  {
    FlatMapAppend(b1, b2, f);
    FlatMapAppend(b1 + [x], b2, f);
    FlatMapAppend(b1, [x], f);
    assert [x][..0] == [];
  }

  lemma FlatMapSnoc<T>(a: seq<Node>, x: Node, f: Node -> seq<T>)
    ensures FlatMap(a + [x], f) == FlatMap(a, f) + f(x)
  {
    assert (a + [x])[..|a + [x]| - 1] == a;
  }

  /** One step of the permutation proof: put `x` back on both sides. */
  lemma FlatMapPutBack<T>(a': seq<Node>, x: Node, b: seq<Node>, k: nat, f: Node -> seq<T>)
    requires k < |b| && b[k] == x
    requires multiset(FlatMap(a', f)) == multiset(FlatMap(b[..k] + b[k + 1..], f))
    ensures multiset(FlatMap(a' + [x], f)) == multiset(FlatMap(b, f))
  {
    var b1, b2 := b[..k], b[k + 1..];
    assert b == b1 + [x] + b2;
    FlatMapAround(b1, x, b2, f);
    FlatMapSnoc(a', x, f);
    var p, q, r := FlatMap(b1, f), f(x), FlatMap(b2, f);
    MultisetMiddle(p, q, r);
    assert multiset(FlatMap(a' + [x], f)) == multiset(FlatMap(a', f)) + multiset(q);
  }

  /** Visiting the same nodes in another order gathers the same elements, as often. */
  lemma {:induction false} FlatMapPermutation<T>(a: seq<Node>, b: seq<Node>, f: Node -> seq<T>)
    requires multiset(a) == multiset(b)
    ensures multiset(FlatMap(a, f)) == multiset(FlatMap(b, f))
    decreases |a|
  {
    if a != [] {
      var x := a[|a| - 1];
      var a' := a[..|a| - 1];
      assert a == a' + [x];
      assert x in multiset(b);
      var k :| 0 <= k < |b| && b[k] == x;
      RemoveMatching(a', x, b, k);
      FlatMapPermutation(a', b[..k] + b[k + 1..], f);
      FlatMapPutBack(a', x, b, k, f);
    }
  }

  lemma {:induction false} FlatMapMember<T>(ns: seq<Node>, f: Node -> seq<T>, y: T)
    ensures y in FlatMap(ns, f) <==> exists k :: 0 <= k < |ns| && y in f(ns[k])
  {
    if ns != [] {
      var ns' := ns[..|ns| - 1];
      FlatMapMember(ns', f, y);
      if y in FlatMap(ns', f) {
        var k :| 0 <= k < |ns'| && y in f(ns'[k]);
        assert ns[k] == ns'[k];
      }
      if exists k :: 0 <= k < |ns| && y in f(ns[k]) {
        var k :| 0 <= k < |ns| && y in f(ns[k]);
        if k < |ns'| {
          assert ns'[k] == ns[k];
        }
      }
    }
  }
}
