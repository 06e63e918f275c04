/** A frame of a small scene: a material over a transform over a cube mesh
    whose VBO is the cube's flattened triangle list. */
module Scenario {
  import opened UniformValues
  import Mesh
  import opened Scene

  /** `makeSimpleMesh(createVBO(cube.getTriFacesVertices()))`. */
  function CubeMesh(opts: Mesh.CubeOptions): (n: Node)
    ensures n.kind == SimpleMesh(108) && n.children == []
  {
    Node(SimpleMesh(|Mesh.TriFacesVertices(Mesh.MakeCube(opts))|), [])
  }

  /** The root of the frame: one material, one transform, `count` cubes. */
  function CubeScene(opts: Mesh.CubeOptions, shader: ShaderId, u: Layer, m: Value, count: nat): Node {
    Node(Plain, [Node(Material(shader, u), [Node(Transform(m), seq(count, _ => CubeMesh(opts)))])])
  }

  lemma {:induction false} CubesFrom(opts: Mesh.CubeOptions, n: Node, i: nat)
    requires i <= |n.children|
    requires forall k :: 0 <= k < |n.children| ==> n.children[k] == CubeMesh(opts)
    ensures MeshesFrom(n, i) == seq(|n.children| - i, _ => 108)
    ensures VertexTotal(MeshesFrom(n, i)) == 36.0 * (|n.children| - i) as real
    decreases |n.children| - i
  {
    if i < |n.children| {
      CubesFrom(opts, n, i + 1);
      assert Meshes(n.children[i]) == [108];
      assert [108] + seq(|n.children| - (i + 1), _ => 108) == seq(|n.children| - i, _ => 108);
      VertexTotalAppend([108], MeshesFrom(n, i + 1));
    }
  }

  /** Drawing the frame issues one draw call of 36 vertices per cube and
      leaves the graph's stores as they were. */
  lemma {:induction false} CubeFrame(opts: Mesh.CubeOptions, shader: ShaderId, u: Layer, m: Value, count: nat, mul: Mul)
    ensures var g := Draw(MakeGraph(), CubeScene(opts, shader, u, m, count), mul);
      g.statistics == Statistics(count, 36.0 * count as real) &&
      g.uniforms == [map[]] && g.textureUnit == 0 && g.shaders == []
  {
    var root := CubeScene(opts, shader, u, m, count);
    var material := root.children[0];
    var transform := material.children[0];
    CubesFrom(opts, transform, 0);
    assert Meshes(transform) == MeshesFrom(transform, 0);
    assert MeshesFrom(material, 1) == [] && MeshesFrom(root, 1) == [];
    assert Meshes(material) == MeshesFrom(material, 0) == Meshes(transform) + [];
    assert Meshes(root) == MeshesFrom(root, 0) == Meshes(material) + [];
    assert |transform.children| == count;
    assert Meshes(root) == MeshesFrom(transform, 0);
    assert |Meshes(root)| == count && VertexTotal(Meshes(root)) == 36.0 * count as real;
  }
}
