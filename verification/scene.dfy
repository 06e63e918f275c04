/** The scene graph of src/scene.js: nodes visited depth-first, and the
    graph object's three LIFO stores (the layered uniform environment, the
    texture-unit counter and the shader stack) that node kinds push in
    `enter` and pop in `exit`.

    Matrix multiplication is a parameter `mul` about which nothing is
    assumed.  GL calls (viewport, clear, `shader.use`, texture binding,
    buffer binding and drawing) are not modelled; a mesh visit records its
    statistics only. */
module Scene {
  import opened Results
  import opened UniformValues

  /** One uniforms object of the prototype chain (its own properties). */
  type Layer = map<string, Value>

  /** The prototype chain of `graph.uniforms`: index 0 is the graph's initial
      `{}`, the last layer is `graph.uniforms` itself. */
  type Env = seq<Layer>

  type ShaderId = nat

  /** `mat4.multiply`, left uninterpreted. */
  type Mul = (Value, Value) -> Value

  datatype Statistics = Statistics(drawCalls: nat, vertices: real)

  /** The fields of the graph object that traversal reads and writes. */
  datatype Graph = Graph(uniforms: Env, textureUnit: int, shaders: seq<ShaderId>, statistics: Statistics)

  /** The node factories in the core: `makeNode`, `makeUniformsNode`,
      `makeMaterial`, `makeTransform`, `makeSimpleMesh` (a VBO of `vboLength` numbers). */
  datatype Kind =
    | Plain
    | UniformsNode(uniforms: Layer)
    | Material(shader: ShaderId, uniforms: Layer)
    | Transform(matrix: Value)
    | SimpleMesh(vboLength: nat)

  datatype Node = Node(kind: Kind, children: seq<Node>)

  const ModelTransform: string := "modelTransform"

  const ExtendNotDefined: string := "ReferenceError: extend is not defined"
  const UniformsOfUndefined: string := "TypeError: Cannot read properties of undefined (reading 'prototype')"

  /** `makeGraph(gl)`, without its root: empty uniforms, unit 0, no shader, zero statistics. */
  function MakeGraph(): (r: Graph)
    ensures r.uniforms == [map[]] && r.textureUnit == 0 && r.shaders == [] && r.statistics == Statistics(0, 0.0)
    ensures forall name :: Lookup(r.uniforms, name).None?
    ensures GetShader(r).None?
  {
    Graph([map[]], 0, [], Statistics(0, 0.0))
  }

  /** `append(child)`: the child goes last, earlier children are untouched. */
  function Append(n: Node, child: Node): (r: Node)
    ensures r.kind == n.kind && |r.children| == |n.children| + 1
    ensures r.children[..|n.children|] == n.children && r.children[|n.children|] == child
  {
    n.(children := n.children + [child])
  }

  // ---------------------------------------------------------------------
  // The graph's stores.

  /** A property read on `graph.uniforms`: the innermost layer defining the name wins. */
  function Lookup(env: Env, name: string): Option<Value>
    decreases |env|
  {
    if |env| == 0 then None
    else if name in env[|env| - 1] then Some(env[|env| - 1][name])
    else Lookup(env[..|env| - 1], name)
  }

  /** `pushUniforms()`: `Object.create(this.uniforms)`. */
  function PushUniforms(g: Graph): (r: Graph)
    ensures r.uniforms == g.uniforms + [map[]]
    ensures forall name :: Lookup(r.uniforms, name) == Lookup(g.uniforms, name)
  {
    assert (g.uniforms + [map[]])[..|g.uniforms|] == g.uniforms;
    g.(uniforms := g.uniforms + [map[]])
  }

  /** `popUniforms()`: `Object.getPrototypeOf(this.uniforms)`. */
  function PopUniforms(g: Graph): (r: Graph)
    requires |g.uniforms| > 0
    ensures r.uniforms == g.uniforms[..|g.uniforms| - 1]
    ensures r.textureUnit == g.textureUnit && r.shaders == g.shaders && r.statistics == g.statistics
    ensures forall name :: name !in g.uniforms[|g.uniforms| - 1] ==> Lookup(r.uniforms, name) == Lookup(g.uniforms, name)
  {
    g.(uniforms := g.uniforms[..|g.uniforms| - 1])
  }

  /** `pushTexture()`: returns the current unit and increments the counter. */
  function PushTexture(g: Graph): (r: (int, Graph))
    ensures r.0 == g.textureUnit && r.1 == g.(textureUnit := g.textureUnit + 1)
  {
    (g.textureUnit, g.(textureUnit := g.textureUnit + 1))
  }

  /** `popTexture()`. */
  function PopTexture(g: Graph): (r: Graph)
    ensures r == g.(textureUnit := g.textureUnit - 1)
  {
    g.(textureUnit := g.textureUnit - 1)
  }

  function PushShader(g: Graph, s: ShaderId): (r: Graph)
    ensures r.shaders == g.shaders + [s] && r.uniforms == g.uniforms && r.textureUnit == g.textureUnit
  {
    g.(shaders := g.shaders + [s])
  }

  /** `popShader()`: `Array.prototype.pop`, which does nothing on an empty array. */
  function PopShader(g: Graph): (r: Graph)
    ensures |g.shaders| > 0 ==> r.shaders == g.shaders[..|g.shaders| - 1]
    ensures |g.shaders| == 0 ==> r == g
    ensures r.uniforms == g.uniforms && r.textureUnit == g.textureUnit
  {
    if |g.shaders| == 0 then g else g.(shaders := g.shaders[..|g.shaders| - 1])
  }

  /** `getShader()`: the last pushed shader, `undefined` when none. */
  function GetShader(g: Graph): (r: Option<ShaderId>)
    ensures r.None? <==> |g.shaders| == 0
    ensures r.Some? ==> r.value in g.shaders
    ensures |g.shaders| > 0 ==> r == Some(g.shaders[|g.shaders| - 1])
  {
    if |g.shaders| == 0 then None else Some(g.shaders[|g.shaders| - 1])
  }

  // ---------------------------------------------------------------------
  // Node kinds.

  /** The uniforms whose value has `bindTexture`. */
  function TextureNames(u: Layer): set<string> {
    set n | n in u && u[n].Texture?
  }

  /** The `for (let uniform in this.uniforms)` loop of `enter`: one
      `pushTexture` per texture uniform; returns the units handed out. */
  function AllocateTextures(g: Graph, k: nat): (r: (seq<int>, Graph))
    ensures |r.0| == k && forall i :: 0 <= i < k ==> r.0[i] == g.textureUnit + i
    ensures r.1 == g.(textureUnit := g.textureUnit + k)
    decreases k
  {
    if k == 0 then ([], g)
    else
      var (unit, g') := PushTexture(g);
      var (units, g'') := AllocateTextures(g', k - 1);
      ([unit] + units, g'')
  }

  /** The loop of `exit`: one `popTexture` per texture uniform. */
  function ReleaseTextures(g: Graph, k: nat): (r: Graph)
    ensures r == g.(textureUnit := g.textureUnit - k)
    decreases k
  {
    if k == 0 then g else ReleaseTextures(PopTexture(g), k - 1)
  }

  /** A uniforms node's `enter`, with `extend(graph.uniforms, this.uniforms)`
      read as copying the node's uniforms into the new top layer. */
  function EnterUniforms(g: Graph, u: Layer): (r: Graph)
    ensures r.uniforms == g.uniforms + [u]
    ensures r.textureUnit == g.textureUnit + |TextureNames(u)|
    ensures r.shaders == g.shaders && r.statistics == g.statistics
  {
    var g1 := AllocateTextures(g, |TextureNames(u)|).1;
    var g2 := PushUniforms(g1);
    assert g2.uniforms[..|g2.uniforms| - 1] == g.uniforms;
    assert g2.uniforms[|g2.uniforms| - 1] + u == u;
    g2.(uniforms := g2.uniforms[..|g2.uniforms| - 1] + [g2.uniforms[|g2.uniforms| - 1] + u])
  }

  /** An exception thrown part-way through, with the graph as it was left. */
  datatype Thrown = Thrown(graph: Graph, error: string)

  /** `enter` as written: `extend` is not defined anywhere, so it throws
      after the textures and an empty new layer have been pushed. */
  function EnterUniformsAsWritten(g: Graph, u: Layer): (r: Thrown)
    ensures r.error == ExtendNotDefined
    ensures r.graph.uniforms == g.uniforms + [map[]]
    ensures r.graph.textureUnit == g.textureUnit + |TextureNames(u)|
    ensures r.graph.shaders == g.shaders && r.graph.statistics == g.statistics
  {
    Thrown(PushUniforms(AllocateTextures(g, |TextureNames(u)|).1), ExtendNotDefined)
  }

  /** A uniforms node's `exit`. */
  function ExitUniforms(g: Graph, u: Layer): (r: Graph)
    requires |g.uniforms| > 0
    ensures r.uniforms == g.uniforms[..|g.uniforms| - 1]
    ensures r.textureUnit == g.textureUnit - |TextureNames(u)|
    ensures r.shaders == g.shaders && r.statistics == g.statistics
  {
    PopUniforms(ReleaseTextures(g, |TextureNames(u)|))
  }

  /** `mat4.multiply(parentModel, matrix)` when the inherited model transform
      is truthy, the node's own matrix otherwise. */
  function ModelTransformFor(env: Env, matrix: Value, mul: Mul): Value {
    match Lookup(env, ModelTransform)
    case Some(parent) => if Truthy(parent) then mul(parent, matrix) else matrix
    case None => matrix
  }

  /** Material `enter` as written: `scene.Uniforms` is undefined (`scene` is
      `{}`), so reading its `prototype` throws after the shader was pushed. */
  function EnterMaterialAsWritten(g: Graph, shader: ShaderId, u: Layer): (r: Thrown)
    ensures r.error == UniformsOfUndefined
    ensures r.graph.shaders == g.shaders + [shader] && GetShader(r.graph) == Some(shader)
    ensures r.graph.uniforms == g.uniforms && r.graph.textureUnit == g.textureUnit
    ensures r.graph.statistics == g.statistics
  {
    Thrown(PushShader(g, shader), UniformsOfUndefined)
  }

  /** Material `enter`, read as "push the shader, then a uniforms node's `enter`". */
  function EnterMaterial(g: Graph, shader: ShaderId, u: Layer): (r: Graph)
    ensures r.shaders == g.shaders + [shader] && GetShader(r) == Some(shader)
    ensures r.uniforms == g.uniforms + [u]
    ensures r.textureUnit == g.textureUnit + |TextureNames(u)|
    ensures r.statistics == g.statistics
  {
    EnterUniforms(PushShader(g, shader), u)
  }

  /** Transform `enter`: a new layer whose only own uniform is the model transform. */
  function EnterTransform(g: Graph, m: Value, mul: Mul): (r: Graph)
    ensures r.uniforms == g.uniforms + [map[ModelTransform := ModelTransformFor(g.uniforms, m, mul)]]
    ensures r.textureUnit == g.textureUnit && r.shaders == g.shaders && r.statistics == g.statistics
  {
    var g1 := PushUniforms(g);
    g1.(uniforms := g.uniforms + [map[ModelTransform := ModelTransformFor(g.uniforms, m, mul)]])
  }

  /** The kinds whose `enter` pushes a uniform layer. */
  predicate PushesLayer(k: Kind) {
    k.UniformsNode? || k.Material? || k.Transform?
  }

  /** `enter(graph)` of each node kind: nothing for a plain node. */
  function Enter(k: Kind, g: Graph, mul: Mul): (r: Graph)
    ensures r.statistics == g.statistics
    ensures PushesLayer(k) ==> |r.uniforms| == |g.uniforms| + 1 && r.uniforms[..|g.uniforms|] == g.uniforms
    ensures !PushesLayer(k) ==> r == g
    ensures k.Material? ==> r.shaders == g.shaders + [k.shader]
    ensures !k.Material? ==> r.shaders == g.shaders
    ensures k.UniformsNode? || k.Material? ==> r.textureUnit == g.textureUnit + |TextureNames(k.uniforms)|
    ensures k.Transform? ==> r.textureUnit == g.textureUnit
  {
    match k
    case Plain => g
    case SimpleMesh(_) => g
    case UniformsNode(u) => EnterUniforms(g, u)
    case Material(s, u) => EnterMaterial(g, s, u)
    case Transform(m) => EnterTransform(g, m, mul)
  }

  /** `exit(graph)` of each node kind. */
  function Exit(k: Kind, g: Graph): (r: Graph)
    requires PushesLayer(k) ==> |g.uniforms| > 0
    ensures r.statistics == g.statistics
    ensures PushesLayer(k) ==> r.uniforms == g.uniforms[..|g.uniforms| - 1]
    ensures !PushesLayer(k) ==> r == g
    ensures k.Material? && |g.shaders| > 0 ==> r.shaders == g.shaders[..|g.shaders| - 1]
    ensures !k.Material? ==> r.shaders == g.shaders
    ensures k.UniformsNode? || k.Material? ==> r.textureUnit == g.textureUnit - |TextureNames(k.uniforms)|
    ensures k.Transform? ==> r.textureUnit == g.textureUnit
  {
    match k
    case Plain => g
    case SimpleMesh(_) => g
    case UniformsNode(u) => ExitUniforms(g, u)
    case Material(_, u) => PopShader(ExitUniforms(g, u))
    case Transform(_) => PopUniforms(g)
  }

  /** A mesh's own `visit`: one draw call and `vbo.length / 3` vertices. */
  function MeshVisit(g: Graph, vboLength: nat): (r: Graph)
    ensures r.statistics.drawCalls == g.statistics.drawCalls + 1
    ensures r.statistics.vertices == g.statistics.vertices + vboLength as real / 3.0
    ensures r.uniforms == g.uniforms && r.textureUnit == g.textureUnit && r.shaders == g.shaders
  {
    g.(statistics := Statistics(g.statistics.drawCalls + 1, g.statistics.vertices + vboLength as real / 3.0))
  }

  // ---------------------------------------------------------------------
  // Traversal.

  /** The VBO lengths of the meshes a visit reaches, in drawing order. */
  function Meshes(n: Node): seq<nat>
    decreases n, 1
  {
    match n.kind
    case SimpleMesh(len) => [len]
    case _ => MeshesFrom(n, 0)
  }

  function MeshesFrom(n: Node, i: nat): seq<nat>
    requires i <= |n.children|
    decreases n, 0, |n.children| - i
  {
    if i == |n.children| then [] else Meshes(n.children[i]) + MeshesFrom(n, i + 1)
  }

  /** The vertex count those meshes add up to. */
  function VertexTotal(lens: seq<nat>): real {
    if lens == [] then 0.0 else lens[0] as real / 3.0 + VertexTotal(lens[1..])
  }

  lemma {:induction false} VertexTotalAppend(a: seq<nat>, b: seq<nat>)
    ensures VertexTotal(a + b) == VertexTotal(a) + VertexTotal(b)
  {
    if a != [] {
      assert (a + b)[0] == a[0] && (a + b)[1..] == a[1..] + b;
      VertexTotalAppend(a[1..], b);
    } else {
      assert a + b == b;
    }
  }

  /** A node is named by the child indices leading to it from the root. */
  datatype Event = Entered(path: seq<nat>) | Exited(path: seq<nat>) | Drawn(path: seq<nat>)

  /** The graph after a visit, and its `enter`/`exit` calls and mesh draws in order. */
  datatype Visited = Visited(graph: Graph, log: seq<Event>)

  /** `visit(graph)` of the node at `path`: `enter`, each child's `visit` in
      order, `exit`; a mesh overrides `visit` and neither enters nor descends.
      A full visit leaves every store as it found it and adds one draw call
      per mesh. */
  function Visit(n: Node, path: seq<nat>, g: Graph, mul: Mul): (r: Visited)
    ensures r.graph.uniforms == g.uniforms && r.graph.textureUnit == g.textureUnit && r.graph.shaders == g.shaders
    ensures r.graph.statistics.drawCalls == g.statistics.drawCalls + |Meshes(n)|
    ensures r.graph.statistics.vertices == g.statistics.vertices + VertexTotal(Meshes(n))
    decreases n, 1
  {
    match n.kind
    case SimpleMesh(len) =>
      assert VertexTotal([len]) == len as real / 3.0;
      Visited(MeshVisit(g, len), [Drawn(path)])
    case _ =>
      var entered := Enter(n.kind, g, mul);
      var inner := VisitChildren(n, path, 0, entered, mul);
      Visited(Exit(n.kind, inner.graph), [Entered(path)] + inner.log + [Exited(path)])
  }

  function VisitChildren(n: Node, path: seq<nat>, i: nat, g: Graph, mul: Mul): (r: Visited)
    requires i <= |n.children|
    ensures r.graph.uniforms == g.uniforms && r.graph.textureUnit == g.textureUnit && r.graph.shaders == g.shaders
    ensures r.graph.statistics.drawCalls == g.statistics.drawCalls + |MeshesFrom(n, i)|
    ensures r.graph.statistics.vertices == g.statistics.vertices + VertexTotal(MeshesFrom(n, i))
    decreases n, 0, |n.children| - i
  {
    if i == |n.children| then Visited(g, [])
    else
      VertexTotalAppend(Meshes(n.children[i]), MeshesFrom(n, i + 1));
      var first := Visit(n.children[i], path + [i], g, mul);
      var rest := VisitChildren(n, path, i + 1, first.graph, mul);
      Visited(rest.graph, first.log + rest.log)
  }

  /** `draw()`: statistics reset to zero, then the root is visited. */
  function Draw(g: Graph, root: Node, mul: Mul): (r: Graph)
    ensures r.uniforms == g.uniforms && r.textureUnit == g.textureUnit && r.shaders == g.shaders
    ensures r.statistics == Statistics(|Meshes(root)|, VertexTotal(Meshes(root)))
  {
    Visit(root, [], g.(statistics := Statistics(0, 0.0)), mul).graph
  }

  // ---------------------------------------------------------------------
  // The prototype chain against a merged map.

  /** What `for (let name in graph.uniforms)` sees: the layers merged from
      the outermost in, inner definitions overriding outer ones. */
  function Flattened(env: Env): map<string, Value>
    decreases |env|
  {
    if |env| == 0 then map[] else Flattened(env[..|env| - 1]) + env[|env| - 1]
  }

  /** A property read down the prototype chain finds exactly what the merged
      map holds. */
  lemma {:induction false} LookupIsFlattened(env: Env, name: string)
    ensures Lookup(env, name).Some? <==> name in Flattened(env)
    ensures name in Flattened(env) ==> Lookup(env, name) == Some(Flattened(env)[name])
    decreases |env|
  {
    if |env| > 0 {
      LookupIsFlattened(env[..|env| - 1], name);
    }
  }

  /** A pushed layer shadows the chain below it and defers to it for every
      name it does not define. */
  lemma LookupAfterPush(env: Env, layer: Layer, name: string)
    ensures Lookup(env + [layer], name) == if name in layer then Some(layer[name]) else Lookup(env, name)
  {
    assert (env + [layer])[..|env|] == env;
  }

  /** Each store's pop undoes its push. */
  lemma StackRoundTrips(g: Graph, s: ShaderId)
    ensures PopUniforms(PushUniforms(g)) == g
    ensures PopTexture(PushTexture(g).1) == g
    ensures GetShader(PushShader(g, s)) == Some(s) && PopShader(PushShader(g, s)) == g
  {
    assert (g.uniforms + [map[]])[..|g.uniforms|] == g.uniforms;
    assert (g.shaders + [s])[..|g.shaders|] == g.shaders;
  }

  /** Inside a uniforms node, its own uniforms are visible and shadow the
      inherited ones; every other name reads as it did outside. */
  lemma EnterUniformsScopes(g: Graph, u: Layer, name: string)
    ensures Lookup(EnterUniforms(g, u).uniforms, name) == if name in u then Some(u[name]) else Lookup(g.uniforms, name)
  {
    LookupAfterPush(g.uniforms, u, name);
  }

  /** Each texture uniform of a node gets its own unit, counting up from the
      first free one, and the counter moves past all of them. */
  lemma TextureUnitsAreFresh(g: Graph, u: Layer)
    ensures var (units, g') := AllocateTextures(g, |TextureNames(u)|);
      |units| == |TextureNames(u)| &&
      (forall i, j :: 0 <= i < j < |units| ==> units[i] < units[j]) &&
      (forall i :: 0 <= i < |units| ==> g.textureUnit <= units[i] < g'.textureUnit)
  {
  }

  /** Inside a transform node the model transform is the parent's composed
      with the node's matrix when the parent has one, the matrix otherwise;
      every other uniform reads as outside. */
  lemma TransformComposes(g: Graph, m: Value, mul: Mul, name: string)
    ensures var inner := Enter(Transform(m), g, mul).uniforms;
      Lookup(inner, ModelTransform) ==
        (match Lookup(g.uniforms, ModelTransform)
         case Some(parent) => if Truthy(parent) then Some(mul(parent, m)) else Some(m)
         case None => Some(m)) &&
      (name != ModelTransform ==> Lookup(inner, name) == Lookup(g.uniforms, name))
  {
    var layer := map[ModelTransform := ModelTransformFor(g.uniforms, m, mul)];
    LookupAfterPush(g.uniforms, layer, name);
    LookupAfterPush(g.uniforms, layer, ModelTransform);
  }

  /** Inside a material its shader is the current one. */
  lemma MaterialSelectsShader(g: Graph, s: ShaderId, u: Layer, mul: Mul)
    ensures GetShader(Enter(Material(s, u), g, mul)) == Some(s)
  {
  }

  /** `exit` undoes `enter` for every node kind. */
  lemma EnterExitRestores(k: Kind, g: Graph, mul: Mul)
    ensures Exit(k, Enter(k, g, mul)) == g
  {
    if PushesLayer(k) {
      assert Enter(k, g, mul).uniforms[..|g.uniforms|] == g.uniforms;
    }
    if k.Material? {
      assert (g.shaders + [k.shader])[..|g.shaders|] == g.shaders;
    }
  }

  /** A frame drawn twice records the same statistics both times. */
  lemma DrawIsRepeatable(g: Graph, root: Node, mul: Mul)
    ensures Draw(Draw(g, root, mul), root, mul) == Draw(g, root, mul)
  {
  }

  // ---------------------------------------------------------------------
  // The order of a visit.

  predicate Distinct(t: seq<Event>) {
    forall i, j :: 0 <= i < j < |t| ==> t[i] != t[j]
  }

  /** The event belongs to the subtree of child `j >= i` of the node at `path`. */
  predicate InChildFrom(path: seq<nat>, i: nat, e: Event) {
    |path| < |e.path| && path <= e.path && e.path[|path|] >= i
  }

  lemma DistinctAppend(a: seq<Event>, b: seq<Event>)
    requires Distinct(a) && Distinct(b)
    requires forall x, y :: x in a && y in b ==> x != y
    ensures Distinct(a + b)
  {
    forall i, j | 0 <= i < j < |a + b|
      ensures (a + b)[i] != (a + b)[j]
    {
      if j < |a| {
        assert (a + b)[i] == a[i] && (a + b)[j] == a[j];
      } else if i >= |a| {
        assert (a + b)[i] == b[i - |a|] && (a + b)[j] == b[j - |a|];
      } else {
        assert (a + b)[i] == a[i] && (a + b)[j] == b[j - |a|];
        assert a[i] in a && b[j - |a|] in b;
      }
    }
  }

  /** In the log of a visit, every node of the tree is entered before
      anything below it happens and exited after; no event is repeated; a
      mesh is one draw. */
  lemma {:induction false} VisitLogNests(n: Node, path: seq<nat>, g: Graph, mul: Mul)
    ensures var t := Visit(n, path, g, mul).log;
      |t| > 0 && Distinct(t) &&
      (forall k :: 0 <= k < |t| ==> path <= t[k].path) &&
      (n.kind.SimpleMesh? ==> t == [Drawn(path)]) &&
      (!n.kind.SimpleMesh? ==>
        t[0] == Entered(path) && t[|t| - 1] == Exited(path) &&
        forall k :: 0 < k < |t| - 1 ==> |path| < |t[k].path|)
    decreases n, 1
  {
    if !n.kind.SimpleMesh? {
      var entered := Enter(n.kind, g, mul);
      var c := VisitChildren(n, path, 0, entered, mul).log;
      assert Distinct(c) && forall k :: 0 <= k < |c| ==> InChildFrom(path, 0, c[k]) by {
        VisitChildrenLogNests(n, path, 0, entered, mul);
      }
      var t := [Entered(path)] + c + [Exited(path)];
      assert Visit(n, path, g, mul).log == t;
      assert forall k :: 0 < k < |t| - 1 ==> t[k] == c[k - 1];
      DistinctAppend([Entered(path)], c);
      DistinctAppend([Entered(path)] + c, [Exited(path)]);
    }
  }

  /** The log of visiting children `i..` of the node at `path`: every event
      lies below one of those children, and nothing repeats. */
  lemma {:induction false} VisitChildrenLogNests(n: Node, path: seq<nat>, i: nat, g: Graph, mul: Mul)
    requires i <= |n.children|
    ensures var t := VisitChildren(n, path, i, g, mul).log;
      Distinct(t) && forall k :: 0 <= k < |t| ==> InChildFrom(path, i, t[k])
    decreases n, 0, |n.children| - i
  {
    if i < |n.children| {
      var first := Visit(n.children[i], path + [i], g, mul);
      var a := first.log;
      var b := VisitChildren(n, path, i + 1, first.graph, mul).log;
      assert VisitChildren(n, path, i, g, mul).log == a + b;
      VisitLogNests(n.children[i], path + [i], g, mul);
      VisitChildrenLogNests(n, path, i + 1, first.graph, mul);
      ChildrenLogAppend(a, b, path, i);
    }
  }

  /** The log of child `i` followed by that of children `i + 1..`. */
  lemma ChildrenLogAppend(a: seq<Event>, b: seq<Event>, path: seq<nat>, i: nat)
    requires Distinct(a) && Distinct(b)
    requires forall k :: 0 <= k < |a| ==> path + [i] <= a[k].path
    requires forall k :: 0 <= k < |b| ==> InChildFrom(path, i + 1, b[k])
    ensures Distinct(a + b) && forall k :: 0 <= k < |a + b| ==> InChildFrom(path, i, (a + b)[k])
  {
    ChildLogBelow(a, path, i);
    forall x, y | x in a && y in b
      ensures x != y
    {
      var k :| 0 <= k < |a| && a[k] == x;
      var l :| 0 <= l < |b| && b[l] == y;
      assert x.path[|path|] == i && y.path[|path|] >= i + 1;
    }
    DistinctAppend(a, b);
    assert forall k :: 0 <= k < |a + b| ==> (a + b)[k] == if k < |a| then a[k] else b[k - |a|];
  }

  /** Every event of the log of child `i` names child `i` at the parent's depth. */
  lemma ChildLogBelow(a: seq<Event>, path: seq<nat>, i: nat)
    requires forall k :: 0 <= k < |a| ==> path + [i] <= a[k].path
    ensures forall k :: 0 <= k < |a| ==> InChildFrom(path, i, a[k]) && a[k].path[|path|] == i
  {
    forall k | 0 <= k < |a|
      ensures InChildFrom(path, i, a[k]) && a[k].path[|path|] == i
    {
      assert (path + [i])[|path|] == i;
      assert path + [i] <= a[k].path;
    }
  }

  /** The events of a log name children at depth `d` in non-decreasing index order. */
  predicate InChildOrder(t: seq<Event>, d: nat) {
    forall k, l :: 0 <= k < l < |t| ==> d < |t[k].path| && d < |t[l].path| && t[k].path[d] <= t[l].path[d]
  }

  lemma InChildOrderAppend(a: seq<Event>, b: seq<Event>, d: nat, i: nat)
    requires forall k :: 0 <= k < |a| ==> d < |a[k].path| && a[k].path[d] == i
    requires forall k :: 0 <= k < |b| ==> d < |b[k].path| && b[k].path[d] > i
    requires InChildOrder(b, d)
    ensures InChildOrder(a + b, d)
  {
    var t := a + b;
    forall k, l | 0 <= k < l < |t|
      ensures d < |t[k].path| && d < |t[l].path| && t[k].path[d] <= t[l].path[d]
    {
      if l < |a| {
        assert t[k] == a[k] && t[l] == a[l];
      } else if k < |a| {
        assert t[k] == a[k] && t[l] == b[l - |a|];
      } else {
        assert t[k] == b[k - |a|] && t[l] == b[l - |a|];
      }
    }
  }

  /** Children `i..` of the node at `path` are visited in index order, and
      each of them is entered (or, for a mesh, drawn). */
  lemma {:induction false} VisitChildrenLogOrdered(n: Node, path: seq<nat>, i: nat, g: Graph, mul: Mul)
    requires i <= |n.children|
    ensures var t := VisitChildren(n, path, i, g, mul).log;
      InChildOrder(t, |path|) &&
      forall j :: i <= j < |n.children| ==> Entered(path + [j]) in t || Drawn(path + [j]) in t
    decreases |n.children| - i
  {
    if i < |n.children| {
      var first := Visit(n.children[i], path + [i], g, mul);
      var a := first.log;
      var b := VisitChildren(n, path, i + 1, first.graph, mul).log;
      var t := a + b;
      assert VisitChildren(n, path, i, g, mul).log == t;
      assert |a| > 0 && (a[0] == Entered(path + [i]) || a[0] == Drawn(path + [i])) &&
        forall k :: 0 <= k < |a| ==> path + [i] <= a[k].path
      by {
        VisitLogNests(n.children[i], path + [i], g, mul);
      }
      assert forall k :: 0 <= k < |b| ==> InChildFrom(path, i + 1, b[k]) by {
        VisitChildrenLogNests(n, path, i + 1, first.graph, mul);
      }
      VisitChildrenLogOrdered(n, path, i + 1, first.graph, mul);
      ChildrenLogOrderedAppend(a, b, path, i, |n.children|);
    }
  }

  /** The ordering step of `VisitChildrenLogOrdered`: child `i`'s log, which
      opens with child `i`, followed by the ordered log of children `i + 1..`. */
  lemma ChildrenLogOrderedAppend(a: seq<Event>, b: seq<Event>, path: seq<nat>, i: nat, count: nat)
    requires |a| > 0 && (a[0] == Entered(path + [i]) || a[0] == Drawn(path + [i]))
    requires forall k :: 0 <= k < |a| ==> path + [i] <= a[k].path
    requires forall k :: 0 <= k < |b| ==> InChildFrom(path, i + 1, b[k])
    requires InChildOrder(b, |path|)
    requires forall j :: i + 1 <= j < count ==> Entered(path + [j]) in b || Drawn(path + [j]) in b
    ensures InChildOrder(a + b, |path|)
    ensures forall j :: i <= j < count ==> Entered(path + [j]) in a + b || Drawn(path + [j]) in a + b
  {
    ChildLogBelow(a, path, i);
    InChildOrderAppend(a, b, |path|, i);
    forall j | i <= j < count
      ensures Entered(path + [j]) in a + b || Drawn(path + [j]) in a + b
    {
      if j == i {
        assert (a + b)[0] == a[0];
      } else {
        assert Entered(path + [j]) in b || Drawn(path + [j]) in b;
      }
    }
  }

  // ---------------------------------------------------------------------
  // The two undefined references.

  /** As written, entering a uniforms node or a material always throws and
      leaves a pushed layer (or shader) behind that no `exit` pops, and none
      of the node's uniforms becomes visible; the intended `enter` makes every
      uniform of the node visible and `exit` undoes it. */
  lemma EnterAsWrittenThrows(g: Graph, s: ShaderId, u: Layer, mul: Mul)
    ensures EnterUniformsAsWritten(g, u).graph != g && EnterMaterialAsWritten(g, s, u).graph != g
    ensures forall name :: Lookup(EnterUniformsAsWritten(g, u).graph.uniforms, name) == Lookup(g.uniforms, name)
    ensures forall name :: name in u ==> Lookup(Enter(UniformsNode(u), g, mul).uniforms, name) == Some(u[name])
    ensures forall name :: name in u ==> Lookup(Enter(Material(s, u), g, mul).uniforms, name) == Some(u[name])
  {
    forall name | name in u
      ensures Lookup(Enter(UniformsNode(u), g, mul).uniforms, name) == Some(u[name])
      ensures Lookup(Enter(Material(s, u), g, mul).uniforms, name) == Some(u[name])
    {
      EnterUniformsScopes(g, u, name);
      EnterUniformsScopes(PushShader(g, s), u, name);
    }
    assert |EnterUniformsAsWritten(g, u).graph.uniforms| != |g.uniforms|;
    assert |EnterMaterialAsWritten(g, s, u).graph.shaders| != |g.shaders|;
  }
}
