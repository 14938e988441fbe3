/**
 * The scene an asset importer hands to the model loader, as plain values.
 * Nothing here is computed by the loader: this is its input (an aiScene with
 * its node tree, meshes and materials), after the importer's own
 * post-processing (triangulation, UV flipping, tangent generation).
 */
module SceneData {
  import opened Wrappers

  /** A three-component attribute value; the loader only copies these. */
  datatype Vec3 = Vec3(x: real, y: real, z: real)

  /** One face: its vertex indices, so that mNumIndices is |indices|. */
  datatype Face = Face(indices: seq<nat>)

  /** The material texture slots the importer distinguishes (aiTextureType). */
  datatype TextureType =
    | Diffuse | Specular | Ambient | Emissive | Height | Normals
    | Shininess | Opacity | Displacement | Lightmap | Reflection | Unknown

  /** A material: for each slot type, the texture file paths filed under it, in order. */
  datatype Material = Material(slots: map<TextureType, seq<string>>)

  /** The paths under one slot; GetTextureCount(ty) is their number and GetTexture(ty, i) the i-th. */
  function SlotPaths(mat: Material, ty: TextureType): seq<string>
  {
    if ty in mat.slots then mat.slots[ty] else []
  }

  /**
   * An imported mesh. mNumVertices is |vertices|; texture-coordinate channel 0
   * may be absent (a null mTextureCoords[0]).
   */
  datatype SceneMesh = SceneMesh(
    vertices: seq<Vec3>,
    normals: seq<Vec3>,
    textureCoords: Option<seq<Vec3>>,
    tangents: seq<Vec3>,
    bitangents: seq<Vec3>,
    faces: seq<Face>,
    materialIndex: nat)

  /** Every per-vertex array the loader reads at index i has an entry for each vertex. */
  predicate WellFormedMesh(m: SceneMesh)
  {
    && |m.normals| == |m.vertices|
    && |m.tangents| == |m.vertices|
    && |m.bitangents| == |m.vertices|
    && (m.textureCoords.Some? ==> |m.textureCoords.value| == |m.vertices|)
  }

  /** A node of the scene graph: indices into the scene's mesh array, then child nodes. */
  datatype SceneNode = SceneNode(meshes: seq<nat>, children: seq<SceneNode>)

  /** AI_SCENE_FLAGS_INCOMPLETE */
  const FlagIncomplete: bv32 := 0x1

  /** The imported scene; the root node pointer may be null. */
  datatype Scene = Scene(flags: bv32, root: Option<SceneNode>, meshes: seq<SceneMesh>, materials: seq<Material>)

  /**
   * The import guard of loadModel: no scene, a scene flagged incomplete, or a
   * scene without a root node.
   */
  predicate ImportFailed(imported: Option<Scene>)
  {
    imported.None? || imported.value.flags & FlagIncomplete != 0 || imported.value.root.None?
  }

  /** Every mesh index stored in the subtree is below n. */
  predicate RefsInRange(node: SceneNode, n: nat)
  {
    && (forall k :: 0 <= k < |node.meshes| ==> node.meshes[k] < n)
    && (forall k :: 0 <= k < |node.children| ==> RefsInRange(node.children[k], n))
  }

  /**
   * What the loader's unchecked indexing needs of a scene: every mesh and
   * material index in range (which the importer guarantees), and every mesh
   * with normal, tangent and bitangent arrays of one entry per vertex (which
   * the importer does not promise).
   */
  predicate WellFormedScene(s: Scene)
  {
    && (forall k :: 0 <= k < |s.meshes| ==> WellFormedMesh(s.meshes[k]) && s.meshes[k].materialIndex < |s.materials|)
    && (s.root.Some? ==> RefsInRange(s.root.value, |s.meshes|))
  }

  /**
   * The mesh indices of a subtree in pre-order: the node's own list, then each
   * child's subtree in listed order.
   */
  function PreorderRefs(node: SceneNode): seq<nat>
    decreases node, 1
  {
    node.meshes + ForestRefs(node.children)
  }

  /** The pre-order mesh indices of a list of sibling subtrees, left to right. */
  function ForestRefs(nodes: seq<SceneNode>): seq<nat>
    decreases nodes, 0
  {
    if |nodes| == 0 then []
    else ForestRefs(nodes[..|nodes| - 1]) + PreorderRefs(nodes[|nodes| - 1])
  }
}
