/**
 * The geometry half of processMesh: one output vertex per imported vertex,
 * and the index list as the faces' index lists laid end to end.
 */
module Geometry {
  import opened Wrappers
  import opened SceneData
  import opened Textures

  /** A two-component texture coordinate. */
  datatype Vec2 = Vec2(x: real, y: real)

  /** The vertex record the loader builds. */
  datatype Vertex = Vertex(position: Vec3, normal: Vec3, texCoords: Vec2, tangent: Vec3, bitangent: Vec3)

  /** A converted mesh: vertices, triangle indices and textures, as handed to the Mesh constructor. */
  datatype Mesh = Mesh(vertices: seq<Vertex>, indices: seq<nat>, textures: seq<Texture>)

  /** The texture coordinate of vertex i: channel 0's x and y, or (0, 0) when the mesh has no channel 0. */
  function TexCoordAt(m: SceneMesh, i: nat): Vec2
    requires WellFormedMesh(m) && i < |m.vertices|
  {
    match m.textureCoords
    case None => Vec2(0.0, 0.0)
    case Some(uv) => Vec2(uv[i].x, uv[i].y)
  }

  /** The vertex built from entry i of each per-vertex array. */
  function VertexAt(m: SceneMesh, i: nat): Vertex
    requires WellFormedMesh(m) && i < |m.vertices|
  {
    Vertex(m.vertices[i], m.normals[i], TexCoordAt(m, i), m.tangents[i], m.bitangents[i])
  }

  /** The vertices built from the first n imported vertices, in order. */
  function VerticesUpTo(m: SceneMesh, n: nat): (r: seq<Vertex>)
    requires WellFormedMesh(m) && n <= |m.vertices|
    ensures |r| == n
  {
    if n == 0 then [] else VerticesUpTo(m, n - 1) + [VertexAt(m, n - 1)]
  }

  /** All vertices of a mesh, in order. */
  function VerticesOf(m: SceneMesh): seq<Vertex>
    requires WellFormedMesh(m)
  {
    VerticesUpTo(m, |m.vertices|)
  }

  /** Output vertex i is built from entry i of each per-vertex array. */
  lemma {:induction false} VerticesUpToAt(m: SceneMesh, n: nat, i: nat)
    requires WellFormedMesh(m) && i < n <= |m.vertices|
    ensures VerticesUpTo(m, n)[i] == VertexAt(m, i)
  {
    if i < n - 1 {
      VerticesUpToAt(m, n - 1, i);
    }
  }

  /** The faces' index lists, concatenated in face order. */
  function Flatten(faces: seq<Face>): seq<nat>
    decreases |faces|
  {
    if |faces| == 0 then []
    else Flatten(faces[..|faces| - 1]) + faces[|faces| - 1].indices
  }

  /** The sum of the faces' mNumIndices. */
  function IndexCount(faces: seq<Face>): nat
    decreases |faces|
  {
    if |faces| == 0 then 0
    else IndexCount(faces[..|faces| - 1]) + |faces[|faces| - 1].indices|
  }

  /** The index list holds as many indices as all faces together. */
  lemma {:induction false} FlattenLength(faces: seq<Face>)
    ensures |Flatten(faces)| == IndexCount(faces)
    decreases |faces|
  {
    if |faces| > 0 {
      FlattenLength(faces[..|faces| - 1]);
    }
  }

  /**
   * Index j of face i sits in the index list right after the indices of the
   * faces before face i.
   */
  lemma {:induction false} FlattenAt(faces: seq<Face>, i: nat, j: nat)
    requires i < |faces| && j < |faces[i].indices|
    ensures IndexCount(faces[..i]) + j < |Flatten(faces)|
    ensures Flatten(faces)[IndexCount(faces[..i]) + j] == faces[i].indices[j]
    decreases |faces|
  {
    var n := |faces|;
    var init := faces[..n - 1];
    FlattenLength(init);
    if i == n - 1 {
      assert faces[..i] == init;
    } else {
      assert init[..i] == faces[..i];
      FlattenAt(init, i, j);
    }
  }

  /** The vertex loop of processMesh. */
  method ExtractVertices(m: SceneMesh) returns (vertices: seq<Vertex>)
    requires WellFormedMesh(m)
    ensures |vertices| == |m.vertices|
    ensures forall i :: 0 <= i < |vertices| ==> vertices[i] == VertexAt(m, i)
    ensures m.textureCoords.None? ==> forall i :: 0 <= i < |vertices| ==> vertices[i].texCoords == Vec2(0.0, 0.0)
    ensures vertices == VerticesOf(m)
  {
    vertices := [];
    var i := 0;
    while i < |m.vertices|
      invariant 0 <= i <= |m.vertices|
      invariant vertices == VerticesUpTo(m, i)
    {
      var texCoords;
      if m.textureCoords.Some? {
        texCoords := Vec2(m.textureCoords.value[i].x, m.textureCoords.value[i].y);
      } else {
        texCoords := Vec2(0.0, 0.0);
      }
      var vertex := Vertex(m.vertices[i], m.normals[i], texCoords, m.tangents[i], m.bitangents[i]);
      vertices := vertices + [vertex];
      i := i + 1;
    }
    forall k | 0 <= k < |vertices|
      ensures vertices[k] == VertexAt(m, k)
    {
      VerticesUpToAt(m, i, k);
    }
  }

  /** The face loop of processMesh: every face's indices pushed in order. */
  method FlattenIndices(faces: seq<Face>) returns (indices: seq<nat>)
    ensures indices == Flatten(faces)
    ensures |indices| == IndexCount(faces)
  {
    indices := [];
    var i := 0;
    while i < |faces|
      invariant 0 <= i <= |faces|
      invariant indices == Flatten(faces[..i])
    {
      var face := faces[i];
      var j := 0;
      while j < |face.indices|
        invariant 0 <= j <= |face.indices|
        invariant indices == Flatten(faces[..i]) + face.indices[..j]
      {
        indices := indices + [face.indices[j]];
        j := j + 1;
      }
      assert face.indices[..j] == face.indices;
      assert faces[..i + 1][..i] == faces[..i];
      i := i + 1;
    }
    assert faces[..i] == faces;
    FlattenLength(faces);
  }
}
