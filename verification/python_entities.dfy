/**
 * `MetadataExtractor.extract_python_entities`: every function, async function
 * and class definition met while walking the parsed module becomes one
 * `CodeEntity`, with the import names found anywhere under it as its
 * dependencies. The parser itself is outside the model: its result is an
 * input, `None` standing for the `SyntaxError` it raises.
 */
module PythonEntities {
  import opened Wrappers
  import opened PyStr
  import opened Values
  import opened PythonAst

  predicate IsDefinition(n: Node) {
    n.kind.FunctionDef? || n.kind.AsyncFunctionDef? || n.kind.ClassDef?
  }

  /**
   * What visiting one node adds to `dependencies`: the name of every alias of an
   * `import`, or the module of a `from … import` (None for `from . import x`).
   */
  function ImportNames(n: Node): seq<Option<string>> {
    match n.kind
    case Import(aliases) => seq(|aliases|, k requires 0 <= k < |aliases| => Some(aliases[k]))
    case ImportFrom(m) => [m]
    case _ => []
  }

  /** The import names gathered while walking the tree under `n`, in visit order. */
  function DependencyList(n: Node): seq<Option<string>> {
    FlatMap(Walk(n), ImportNames)
  }

  /** `ast.unparse(d).strip()` for each decorator. */
  function DecoratorTexts(n: Node): seq<string> {
    seq(|n.decorators|, k requires 0 <= k < |n.decorators| => Strip(n.decorators[k]))
  }

  /** The entity built for a definition node. */
  function EntityOf(n: Node): (e: CodeEntity)
    ensures e.kind == "class" <==> n.kind.ClassDef?
    ensures e.kind == "function" <==> !n.kind.ClassDef?
    ensures e.name == n.name && e.parent.None?
  {
    CodeEntity(n.name, if n.kind.ClassDef? then "class" else "function", n.docstring,
               n.lineno, n.endLineno, DecoratorTexts(n), None, set d | d in DependencyList(n))
  }

  function EntityIfDefinition(n: Node): seq<CodeEntity> {
    if IsDefinition(n) then [EntityOf(n)] else []
  }

  /** The entities of a parse result: none for a syntax error, else one per definition in walk order. */
  function PythonEntities(parsed: Option<Node>): seq<CodeEntity> {
    match parsed
    case None => []
    case Some(tree) => FlatMap(Walk(tree), EntityIfDefinition)
  }

  /** The inner loop: the import names of every node `ast.walk(node)` visits. */
  method CollectDependencies(node: Node) returns (deps: seq<Option<string>>)
    ensures deps == DependencyList(node)
  {
    var nodes := Walk(node);
    deps := [];
    var i := 0;
    while i < |nodes|
      invariant 0 <= i <= |nodes|
      invariant deps == FlatMap(nodes[..i], ImportNames)
    {
      var sub := nodes[i];
      match sub.kind {
        case Import(aliases) =>
          deps := deps + seq(|aliases|, k requires 0 <= k < |aliases| => Some(aliases[k]));
        case ImportFrom(m) =>
          deps := deps + [m];
        case _ =>
      }
      assert nodes[..i + 1][..i] == nodes[..i];
      i := i + 1;
    }
    assert nodes[..|nodes|] == nodes;
  }

  /**
   * `extract_python_entities`: a syntax error gives the empty list; otherwise one
   * entity per definition node, in the order `ast.walk` visits them.
   */
  method ExtractPythonEntities(parsed: Option<Node>) returns (entities: seq<CodeEntity>)
    ensures parsed.None? ==> entities == []
    ensures entities == PythonEntities(parsed)
  {
    if parsed.None? {
      return [];
    }
    var nodes := Walk(parsed.value);
    entities := [];
    var i := 0;
    while i < |nodes|
      invariant 0 <= i <= |nodes|
      invariant entities == FlatMap(nodes[..i], EntityIfDefinition)
    {
      var node := nodes[i];
      if IsDefinition(node) {
        var decorators := DecoratorTexts(node);
        var dependencies := CollectDependencies(node);
        var entity := CodeEntity(node.name, if node.kind.ClassDef? then "class" else "function",
                                 node.docstring, node.lineno, node.endLineno, decorators, None,
                                 set d | d in dependencies);
        entities := entities + [entity];
      }
      assert nodes[..i + 1][..i] == nodes[..i];
      i := i + 1;
    }
    assert nodes[..|nodes|] == nodes;
  }

  /**
   * Every definition in the tree, nested ones included, gives exactly one entity:
   * the entities are those of a pre-order enumeration of the tree, rearranged.
   */
  lemma EveryDefinitionOnce(tree: Node)
    ensures multiset(PythonEntities(Some(tree))) == multiset(FlatMap(Preorder(tree), EntityIfDefinition))
  {
    WalkIsPermutation(tree);
    FlatMapPermutation(Walk(tree), Preorder(tree), EntityIfDefinition);
  }

  /** An entity appears exactly when some definition node of the tree produces it. */
  lemma EntityMembership(tree: Node, e: CodeEntity)
    ensures e in PythonEntities(Some(tree)) <==> exists d :: d in Preorder(tree) && IsDefinition(d) && e == EntityOf(d)
  {
    EveryDefinitionOnce(tree);
    var pre := Preorder(tree);
    assert e in PythonEntities(Some(tree)) <==> e in multiset(FlatMap(pre, EntityIfDefinition));
    DefinitionMember(pre, e);
  }

  lemma DefinitionMember(ns: seq<Node>, e: CodeEntity)
    ensures e in FlatMap(ns, EntityIfDefinition) <==> exists d :: d in ns && IsDefinition(d) && e == EntityOf(d)
  {
    FlatMapMember(ns, EntityIfDefinition, e);
    if e in FlatMap(ns, EntityIfDefinition) {
      var k :| 0 <= k < |ns| && e in EntityIfDefinition(ns[k]);
      assert ns[k] in ns;
    }
    if exists d :: d in ns && IsDefinition(d) && e == EntityOf(d) {
      var d :| d in ns && IsDefinition(d) && e == EntityOf(d);
      var k :| 0 <= k < |ns| && ns[k] == d;
      assert e in EntityIfDefinition(ns[k]);
    }
  }

  /** Each entity's type is 'class' or 'function'. */
  lemma {:induction false} EntityKinds(ns: seq<Node>)
    ensures forall e :: e in FlatMap(ns, EntityIfDefinition) ==> e.kind == "class" || e.kind == "function"
  {
    forall e | e in FlatMap(ns, EntityIfDefinition)
      ensures e.kind == "class" || e.kind == "function"
    {
      FlatMapMember(ns, EntityIfDefinition, e);
    }
  }

  /**
   * An entity's dependencies are exactly the import names of the nodes in its
   * whole subtree, duplicates removed.
   */
  lemma DependenciesOfSubtree(n: Node, x: Option<string>)
    ensures x in EntityOf(n).dependencies <==> exists d :: d in Preorder(n) && x in ImportNames(d)
  {
    var w, pre := Walk(n), Preorder(n);
    WalkIsPermutation(n);
    FlatMapMember(w, ImportNames, x);
    if x in EntityOf(n).dependencies {
      var k :| 0 <= k < |w| && x in ImportNames(w[k]);
      assert w[k] in multiset(w);
    }
    if exists d :: d in pre && x in ImportNames(d) {
      var d :| d in pre && x in ImportNames(d);
      assert d in multiset(pre);
      var k :| 0 <= k < |w| && w[k] == d;
    }
  }

  /** A relative `from . import x` anywhere under a definition puts None among its dependencies. */
  lemma RelativeImportIsNone(n: Node, d: Node)
    requires d in Preorder(n) && d.kind == ImportFrom(None)
    ensures None in EntityOf(n).dependencies
  {
    assert None in ImportNames(d);
    DependenciesOfSubtree(n, None);
  }
}
