/**
 * What loading a scene computes, as pure functions over the cache state: the
 * textures of a material (four slot lookups in a fixed order), one converted
 * mesh (processMesh), and the pre-order walk of the node tree (processNode);
 * plus the texture uploads the loads cause. The lemmas here state what the
 * loader promises about them.
 */
module Loading {
  import opened Wrappers
  import opened SceneData
  import opened Paths
  import opened Formats
  import opened Textures
  import opened Geometry
  import opened Graphics

  // ---------------------------------------------------------------- uploads

  /** textureFromFile's effect on the backend: an image that decodes is uploaded with the table's format. */
  function Upload(images: map<nat, Option<PixelFormat>>, files: map<string, Image>, filename: string, id: nat)
    : map<nat, Option<PixelFormat>>
  {
    if filename in files then images[id := PixelFormatFor(files[filename].channels)] else images
  }

  /** The uploads of a run of newly loaded textures, in load order. */
  function Uploads(images: map<nat, Option<PixelFormat>>, files: map<string, Image>, directory: string, entries: seq<Texture>)
    : map<nat, Option<PixelFormat>>
    decreases |entries|
  {
    if |entries| == 0 then images
    else
      var e := entries[|entries| - 1];
      Upload(Uploads(images, files, directory, entries[..|entries| - 1]), files, TextureFilename(directory, e.path), e.id)
  }

  /** Uploading two runs one after the other is uploading their concatenation. */
  lemma {:induction false} UploadsAppend(images: map<nat, Option<PixelFormat>>, files: map<string, Image>, directory: string,
                                          a: seq<Texture>, b: seq<Texture>)
    ensures Uploads(Uploads(images, files, directory, a), files, directory, b) == Uploads(images, files, directory, a + b)
    decreases |b|
  {
    if |b| == 0 {
      assert a + b == a;
    } else {
      assert (a + b)[..|a + b| - 1] == a + b[..|b| - 1];
      assert (a + b)[|a + b| - 1] == b[|b| - 1];
      UploadsAppend(images, files, directory, a, b[..|b| - 1]);
    }
  }

  /** Uploads over a cache that grew twice: the two new runs compose. */
  lemma UploadsGrow(images: map<nat, Option<PixelFormat>>, files: map<string, Image>, directory: string,
                    a: seq<Texture>, b: seq<Texture>, c: seq<Texture>)
    requires a <= b <= c
    ensures Uploads(Uploads(images, files, directory, b[|a|..]), files, directory, c[|b|..]) == Uploads(images, files, directory, c[|a|..])
  {
    assert c[|a|..] == b[|a|..] + c[|b|..];
    UploadsAppend(images, files, directory, b[|a|..], c[|b|..]);
  }

  /** One more loaded texture after a run is one more upload after that run's uploads. */
  lemma UploadsSnoc(images: map<nat, Option<PixelFormat>>, files: map<string, Image>, directory: string,
                    a: seq<Texture>, b: seq<Texture>, t: Texture)
    requires a <= b
    ensures Uploads(images, files, directory, (b + [t])[|a|..])
         == Upload(Uploads(images, files, directory, b[|a|..]), files, TextureFilename(directory, t.path), t.id)
  {
    var run := b[|a|..];
    assert (b + [t])[|a|..] == run + [t];
    assert (run + [t])[..|run|] == run;
  }

  /**
   * Among textures with distinct names, each whose file decodes holds its
   * image in the table's format; one whose file does not decode keeps what its
   * name held before.
   */
  lemma {:induction false} UploadsAt(images: map<nat, Option<PixelFormat>>, files: map<string, Image>, directory: string,
                                      entries: seq<Texture>, k: nat)
    requires DistinctIds(entries)
    requires k < |entries|
    ensures var f := TextureFilename(directory, entries[k].path);
      var r := Uploads(images, files, directory, entries);
      && (f in files ==> entries[k].id in r && r[entries[k].id] == PixelFormatFor(files[f].channels))
      && (f !in files ==> (entries[k].id in r <==> entries[k].id in images))
      && (f !in files && entries[k].id in images ==> r[entries[k].id] == images[entries[k].id])
    decreases |entries|
  {
    var n := |entries|;
    var init := entries[..n - 1];
    if k < n - 1 {
      assert DistinctIds(init);
      UploadsAt(images, files, directory, init, k);
      assert entries[n - 1].id != entries[k].id;
    } else {
      UploadsUntouched(images, files, directory, init, entries[k].id);
    }
  }

  /** Uploads leave alone every name that no entry carries. */
  lemma {:induction false} UploadsUntouched(images: map<nat, Option<PixelFormat>>, files: map<string, Image>, directory: string,
                                             entries: seq<Texture>, id: nat)
    requires forall k :: 0 <= k < |entries| ==> entries[k].id != id
    ensures id in Uploads(images, files, directory, entries) <==> id in images
    ensures id in images ==> Uploads(images, files, directory, entries)[id] == images[id]
    decreases |entries|
  {
    if |entries| > 0 {
      UploadsUntouched(images, files, directory, entries[..|entries| - 1], id);
    }
  }

  // ------------------------------------------------------ material textures

  /** The slot paths of a material in the order processMesh visits the slots. */
  function MaterialPaths(mat: Material): seq<string>
  {
    SlotPaths(mat, Diffuse) + SlotPaths(mat, Specular) + SlotPaths(mat, Height) + SlotPaths(mat, Ambient)
  }

  /**
   * The tag a path of the material is first loaded under: that of the first
   * slot listing it. The height slot is tagged "texture_normal" and the
   * ambient slot "texture_height".
   */
  function FirstTag(mat: Material, path: string): string
  {
    if path in SlotPaths(mat, Diffuse) then "texture_diffuse"
    else if path in SlotPaths(mat, Specular) then "texture_specular"
    else if path in SlotPaths(mat, Height) then "texture_normal"
    else "texture_height"
  }

  /** The four loadMaterialTextures calls of processMesh, concatenated in call order. */
  function MaterialTextures(st: LoadState, mat: Material): Loaded
  {
    var diffuse := LoadAll(st, "texture_diffuse", SlotPaths(mat, Diffuse));
    var specular := LoadAll(diffuse.state, "texture_specular", SlotPaths(mat, Specular));
    var normal := LoadAll(specular.state, "texture_normal", SlotPaths(mat, Height));
    var height := LoadAll(normal.state, "texture_height", SlotPaths(mat, Ambient));
    Loaded(diffuse.textures + specular.textures + normal.textures + height.textures, height.state)
  }

  /**
   * After loading textures for paths ps from st: one texture per path, each the
   * cache's record for it; the cache grew by appending; each appended record
   * carries the first tag of its path, one of the paths ps, and a path the
   * cache did not have.
   */
  predicate LoadedSoFar(st: LoadState, acc: Loaded, ps: seq<string>, mat: Material)
  {
    && |acc.textures| == |ps|
    && (forall i :: 0 <= i < |ps| ==> acc.textures[i].path == ps[i])
    && Resolved(acc.state.loaded, acc.textures)
    && Extends(st, acc.state)
    && (forall k :: |st.loaded| <= k < |acc.state.loaded| ==> acc.state.loaded[k].typeName == FirstTag(mat, acc.state.loaded[k].path))
    && (forall k :: |st.loaded| <= k < |acc.state.loaded| ==> acc.state.loaded[k].path in ps)
    && (forall k, j :: 0 <= j < |st.loaded| <= k < |acc.state.loaded| ==> st.loaded[j].path != acc.state.loaded[k].path)
  }

  /** One more slot, whose new paths all have tag typeName, keeps LoadedSoFar. */
  lemma LoadedSoFarStep(st: LoadState, acc: Loaded, ps: seq<string>, mat: Material, typeName: string, slot: seq<string>)
    requires LoadedSoFar(st, acc, ps, mat)
    requires forall p :: p in slot && p !in ps ==> FirstTag(mat, p) == typeName
    ensures var r := LoadAll(acc.state, typeName, slot);
      LoadedSoFar(st, Loaded(acc.textures + r.textures, r.state), ps + slot, mat)
  {
    var r := LoadAll(acc.state, typeName, slot);
    LoadAllShape(acc.state, typeName, slot);
    LoadAllResolved(acc.state, typeName, slot);
    LoadNewPaths(acc.state, typeName, slot);
    ResolvedConcat(acc.state.loaded, r.state.loaded, acc.textures, r.textures);
    ExtendsTrans(st, acc.state, r.state);
    StepTags(st, acc, ps, mat, typeName, slot);
    StepNewPaths(st, acc.state, r.state);
    var ts, all := acc.textures + r.textures, ps + slot;
    forall i | 0 <= i < |all|
      ensures ts[i].path == all[i]
    {
      if i < |ps| { assert ts[i] == acc.textures[i]; } else { assert ts[i] == r.textures[i - |ps|]; }
    }
  }

  /** Textures resolved in a cache and in its extension are, together, resolved in the extension. */
  lemma ResolvedConcat(loaded: seq<Texture>, loaded': seq<Texture>, ts: seq<Texture>, ts': seq<Texture>)
    requires loaded <= loaded'
    requires Resolved(loaded, ts) && Resolved(loaded', ts')
    ensures Resolved(loaded', ts + ts')
  {
    ResolvedPrefix(loaded, loaded', ts);
    var all := ts + ts';
    forall i | 0 <= i < |all|
      ensures FindPath(loaded', all[i].path).Some? && loaded'[FindPath(loaded', all[i].path).value] == all[i]
    {
      if i < |ts| { assert all[i] == ts[i]; } else { assert all[i] == ts'[i - |ts|]; }
    }
  }

  /** The records one more slot appends carry the first tag of their path, and a path listed so far. */
  lemma StepTags(st: LoadState, acc: Loaded, ps: seq<string>, mat: Material, typeName: string, slot: seq<string>)
    requires LoadedSoFar(st, acc, ps, mat)
    requires forall p :: p in slot && p !in ps ==> FirstTag(mat, p) == typeName
    ensures var r := LoadAll(acc.state, typeName, slot);
      forall k :: |st.loaded| <= k < |r.state.loaded| ==>
        r.state.loaded[k].typeName == FirstTag(mat, r.state.loaded[k].path) && r.state.loaded[k].path in ps + slot
  {
    var r := LoadAll(acc.state, typeName, slot);
    LoadAllShape(acc.state, typeName, slot);
    LoadNewPaths(acc.state, typeName, slot);
    forall k | |st.loaded| <= k < |r.state.loaded|
      ensures r.state.loaded[k].typeName == FirstTag(mat, r.state.loaded[k].path) && r.state.loaded[k].path in ps + slot
    {
      if k < |acc.state.loaded| {
        assert r.state.loaded[k] == acc.state.loaded[k];
      } else {
        assert r.state.loaded[k].path in slot;
      }
    }
  }

  /** Records appended in two steps both have paths the starting cache lacked. */
  lemma StepNewPaths(st: LoadState, mid: LoadState, st': LoadState)
    requires st.loaded <= mid.loaded <= st'.loaded
    requires forall k, j :: 0 <= j < |st.loaded| <= k < |mid.loaded| ==> st.loaded[j].path != mid.loaded[k].path
    requires forall k, j :: 0 <= j < |mid.loaded| <= k < |st'.loaded| ==> mid.loaded[j].path != st'.loaded[k].path
    ensures forall k, j :: 0 <= j < |st.loaded| <= k < |st'.loaded| ==> st.loaded[j].path != st'.loaded[k].path
  {
    forall k, j | 0 <= j < |st.loaded| <= k < |st'.loaded|
      ensures st.loaded[j].path != st'.loaded[k].path
    {
      if k < |mid.loaded| {
        assert st'.loaded[k] == mid.loaded[k];
      } else {
        assert mid.loaded[j] == st.loaded[j];
      }
    }
  }

  /** The records loadMaterialTextures appends have paths the cache did not hold before the call. */
  lemma {:induction false} LoadNewPaths(st: LoadState, typeName: string, paths: seq<string>)
    ensures var r := LoadAll(st, typeName, paths);
      forall k, j :: 0 <= j < |st.loaded| <= k < |r.state.loaded| ==> st.loaded[j].path != r.state.loaded[k].path
    decreases |paths|
  {
    if |paths| > 0 {
      var init := paths[..|paths| - 1];
      LoadNewPaths(st, typeName, init);
      LoadAllShape(st, typeName, init);
      var r := LoadAll(st, typeName, init);
      var o := LoadOne(r.state, typeName, paths[|paths| - 1]);
      forall k, j | 0 <= j < |st.loaded| <= k < |o.state.loaded|
        ensures st.loaded[j].path != o.state.loaded[k].path
      {
        assert st.loaded[j] == r.state.loaded[j];
        if k < |r.state.loaded| {
          assert o.state.loaded[k] == r.state.loaded[k];
        }
      }
    }
  }

  /**
   * A mesh's textures are the diffuse, specular, height and ambient slot paths
   * in that order, each the cache's record for its path; a path the cache held
   * before yields the cached record; every record added is tagged after the
   * first slot listing its path, has one of the material's slot paths, and
   * has a name the counter handed out; the
   * cache invariant is kept.
   */
  lemma MaterialTexturesSpec(st: LoadState, mat: Material)
    ensures var r := MaterialTextures(st, mat);
      && |r.textures| == |MaterialPaths(mat)|
      && (forall i :: 0 <= i < |r.textures| ==> r.textures[i].path == MaterialPaths(mat)[i])
      && Resolved(r.state.loaded, r.textures)
      && Extends(st, r.state)
      && (forall k :: |st.loaded| <= k < |r.state.loaded| ==> r.state.loaded[k].typeName == FirstTag(mat, r.state.loaded[k].path))
      && (forall k :: |st.loaded| <= k < |r.state.loaded| ==> r.state.loaded[k].path in MaterialPaths(mat))
      && (forall i :: 0 <= i < |r.textures| && FindPath(st.loaded, r.textures[i].path).Some? ==>
            r.textures[i] == st.loaded[FindPath(st.loaded, r.textures[i].path).value])
      && (Textures.Valid(st) ==> Textures.Valid(r.state))
  {
    var d, s, h, a := SlotPaths(mat, Diffuse), SlotPaths(mat, Specular), SlotPaths(mat, Height), SlotPaths(mat, Ambient);
    var acc0 := Loaded([], st);
    assert LoadedSoFar(st, acc0, [], mat);
    var diffuse := LoadAll(st, "texture_diffuse", d);
    LoadedSoFarStep(st, acc0, [], mat, "texture_diffuse", d);
    var acc1 := Loaded(diffuse.textures, diffuse.state);
    assert acc0.textures + diffuse.textures == diffuse.textures;
    assert [] + d == d;
    var specular := LoadAll(acc1.state, "texture_specular", s);
    LoadedSoFarStep(st, acc1, d, mat, "texture_specular", s);
    var acc2 := Loaded(acc1.textures + specular.textures, specular.state);
    var normal := LoadAll(acc2.state, "texture_normal", h);
    LoadedSoFarStep(st, acc2, d + s, mat, "texture_normal", h);
    var acc3 := Loaded(acc2.textures + normal.textures, normal.state);
    var height := LoadAll(acc3.state, "texture_height", a);
    LoadedSoFarStep(st, acc3, d + s + h, mat, "texture_height", a);
    var r := MaterialTextures(st, mat);
    assert r == Loaded(acc3.textures + height.textures, height.state);
    forall i | 0 <= i < |r.textures| && FindPath(st.loaded, r.textures[i].path).Some?
      ensures r.textures[i] == st.loaded[FindPath(st.loaded, r.textures[i].path).value]
    {
      FindPathPrefix(st.loaded, r.state.loaded, r.textures[i].path);
    }
    if Textures.Valid(st) {
      LoadAllValid(st, "texture_diffuse", d);
      LoadAllValid(diffuse.state, "texture_specular", s);
      LoadAllValid(specular.state, "texture_normal", h);
      LoadAllValid(normal.state, "texture_height", a);
    }
  }

  // ------------------------------------------------------------------ meshes

  /** A converted mesh and the cache state after converting it. */
  datatype Built = Built(mesh: Mesh, state: LoadState)

  /** processMesh: vertices, flattened indices, and the material's textures through the cache. */
  function MeshSpec(scene: Scene, m: SceneMesh, st: LoadState): Built
    requires WellFormedMesh(m) && m.materialIndex < |scene.materials|
  {
    var t := MaterialTextures(st, scene.materials[m.materialIndex]);
    Built(Mesh(VerticesOf(m), Flatten(m.faces), t.textures), t.state)
  }

  /**
   * mesh is what the loader makes of scene mesh number ref: its vertices, its
   * faces' indices in order, and one texture per slot path of its material.
   */
  predicate ConvertedRef(scene: Scene, ref: nat, mesh: Mesh)
  {
    && ref < |scene.meshes|
    && WellFormedMesh(scene.meshes[ref])
    && scene.meshes[ref].materialIndex < |scene.materials|
    && mesh.vertices == VerticesOf(scene.meshes[ref])
    && mesh.indices == Flatten(scene.meshes[ref].faces)
    && |mesh.textures| == |MaterialPaths(scene.materials[scene.meshes[ref].materialIndex])|
    && forall i :: 0 <= i < |mesh.textures| ==>
         mesh.textures[i].path == MaterialPaths(scene.materials[scene.meshes[ref].materialIndex])[i]
  }

  // -------------------------------------------------------------------- walk

  /** Meshes appended by a walk, with the cache state after it. */
  datatype Walk = Walk(meshes: seq<Mesh>, state: LoadState)

  /** The first loop of processNode: the node's meshes, converted in listed order. */
  function RefsSpec(scene: Scene, refs: seq<nat>, st: LoadState): Walk
    requires WellFormedScene(scene)
    requires forall k :: 0 <= k < |refs| ==> refs[k] < |scene.meshes|
    decreases |refs|
  {
    if |refs| == 0 then Walk([], st)
    else
      var r := RefsSpec(scene, refs[..|refs| - 1], st);
      var b := MeshSpec(scene, scene.meshes[refs[|refs| - 1]], r.state);
      Walk(r.meshes + [b.mesh], b.state)
  }

  /** processNode: the node's own meshes, then each child's subtree in listed order. */
  function NodeSpec(scene: Scene, node: SceneNode, st: LoadState): Walk
    requires WellFormedScene(scene) && RefsInRange(node, |scene.meshes|)
    decreases node, 1
  {
    var r := RefsSpec(scene, node.meshes, st);
    var c := ChildrenSpec(scene, node.children, r.state);
    Walk(r.meshes + c.meshes, c.state)
  }

  /** The second loop of processNode: the subtrees of the children, left to right. */
  function ChildrenSpec(scene: Scene, nodes: seq<SceneNode>, st: LoadState): Walk
    requires WellFormedScene(scene)
    requires forall k :: 0 <= k < |nodes| ==> RefsInRange(nodes[k], |scene.meshes|)
    decreases nodes, 0
  {
    if |nodes| == 0 then Walk([], st)
    else
      var init := nodes[..|nodes| - 1];
      var r := ChildrenSpec(scene, init, st);
      var w := NodeSpec(scene, nodes[|nodes| - 1], r.state);
      Walk(r.meshes + w.meshes, w.state)
  }

  /** One more mesh reference converts one more mesh after the walk so far. */
  lemma RefsSpecStep(scene: Scene, refs: seq<nat>, i: nat, st: LoadState)
    requires WellFormedScene(scene)
    requires forall k :: 0 <= k < |refs| ==> refs[k] < |scene.meshes|
    requires i < |refs|
    ensures var r := RefsSpec(scene, refs[..i], st);
      var b := MeshSpec(scene, scene.meshes[refs[i]], r.state);
      RefsSpec(scene, refs[..i + 1], st) == Walk(r.meshes + [b.mesh], b.state)
  {
    assert refs[..i + 1][..i] == refs[..i];
  }

  /** One more child walks one more subtree after the walk so far. */
  lemma ChildrenSpecStep(scene: Scene, nodes: seq<SceneNode>, i: nat, st: LoadState)
    requires WellFormedScene(scene)
    requires forall k :: 0 <= k < |nodes| ==> RefsInRange(nodes[k], |scene.meshes|)
    requires i < |nodes|
    ensures var r := ChildrenSpec(scene, nodes[..i], st);
      var w := NodeSpec(scene, nodes[i], r.state);
      ChildrenSpec(scene, nodes[..i + 1], st) == Walk(r.meshes + w.meshes, w.state)
  {
    assert nodes[..i + 1][..i] == nodes[..i];
  }

  /**
   * w converts the scene meshes numbered refs, in that order; every texture of
   * every mesh is the final cache's record for its path; the cache only grew
   * by appending, and kept its invariant.
   */
  predicate Walked(scene: Scene, refs: seq<nat>, st: LoadState, w: Walk)
  {
    && |w.meshes| == |refs|
    && (forall k :: 0 <= k < |refs| ==> ConvertedRef(scene, refs[k], w.meshes[k]))
    && (forall k :: 0 <= k < |refs| ==> Resolved(w.state.loaded, w.meshes[k].textures))
    && Extends(st, w.state)
    && (Textures.Valid(st) ==> Textures.Valid(w.state))
  }

  /** Two walks one after the other walk the concatenated references. */
  lemma WalkedAppend(scene: Scene, refs1: seq<nat>, refs2: seq<nat>, st: LoadState, w1: Walk, w2: Walk)
    requires Walked(scene, refs1, st, w1)
    requires Walked(scene, refs2, w1.state, w2)
    ensures Walked(scene, refs1 + refs2, st, Walk(w1.meshes + w2.meshes, w2.state))
  {
    ExtendsTrans(st, w1.state, w2.state);
    var ms := w1.meshes + w2.meshes;
    var refs := refs1 + refs2;
    forall k | 0 <= k < |refs|
      ensures ConvertedRef(scene, refs[k], ms[k]) && Resolved(w2.state.loaded, ms[k].textures)
    {
      if k < |refs1| {
        assert refs[k] == refs1[k] && ms[k] == w1.meshes[k];
        ResolvedPrefix(w1.state.loaded, w2.state.loaded, w1.meshes[k].textures);
      } else {
        assert refs[k] == refs2[k - |refs1|] && ms[k] == w2.meshes[k - |refs1|];
      }
    }
  }

  /** Converting one mesh walks its one reference. */
  lemma MeshWalked(scene: Scene, ref: nat, st: LoadState)
    requires WellFormedScene(scene) && ref < |scene.meshes|
    ensures var b := MeshSpec(scene, scene.meshes[ref], st);
      Walked(scene, [ref], st, Walk([b.mesh], b.state))
  {
    MaterialTexturesSpec(st, scene.materials[scene.meshes[ref].materialIndex]);
  }

  /** The first loop of processNode converts the listed meshes in order. */
  lemma {:induction false} RefsWalked(scene: Scene, refs: seq<nat>, st: LoadState)
    requires WellFormedScene(scene)
    requires forall k :: 0 <= k < |refs| ==> refs[k] < |scene.meshes|
    ensures Walked(scene, refs, st, RefsSpec(scene, refs, st))
    decreases |refs|
  {
    if |refs| == 0 {
      assert Walked(scene, refs, st, Walk([], st));
    } else {
      var init, last := refs[..|refs| - 1], refs[|refs| - 1];
      assert init + [last] == refs;
      RefsWalked(scene, init, st);
      var r := RefsSpec(scene, init, st);
      MeshWalked(scene, last, r.state);
      var b := MeshSpec(scene, scene.meshes[last], r.state);
      WalkedAppend(scene, init, [last], st, r, Walk([b.mesh], b.state));
    }
  }

  /**
   * processNode appends exactly one converted mesh per mesh reference of the
   * subtree, in pre-order: the node's meshes before its children's, children
   * in listed order.
   */
  lemma {:induction false} NodeWalked(scene: Scene, node: SceneNode, st: LoadState)
    requires WellFormedScene(scene) && RefsInRange(node, |scene.meshes|)
    ensures Walked(scene, PreorderRefs(node), st, NodeSpec(scene, node, st))
    decreases node, 1
  {
    RefsWalked(scene, node.meshes, st);
    var r := RefsSpec(scene, node.meshes, st);
    ChildrenWalked(scene, node.children, r.state);
    var c := ChildrenSpec(scene, node.children, r.state);
    WalkedAppend(scene, node.meshes, ForestRefs(node.children), st, r, c);
  }

  /** The children loop of processNode walks the children's subtrees in listed order. */
  lemma {:induction false} ChildrenWalked(scene: Scene, nodes: seq<SceneNode>, st: LoadState)
    requires WellFormedScene(scene)
    requires forall k :: 0 <= k < |nodes| ==> RefsInRange(nodes[k], |scene.meshes|)
    ensures Walked(scene, ForestRefs(nodes), st, ChildrenSpec(scene, nodes, st))
    decreases nodes, 0
  {
    if |nodes| == 0 {
      assert Walked(scene, [], st, Walk([], st));
    } else {
      var init := nodes[..|nodes| - 1];
      ChildrenWalked(scene, init, st);
      var r := ChildrenSpec(scene, init, st);
      NodeWalked(scene, nodes[|nodes| - 1], r.state);
      WalkedAppend(scene, ForestRefs(init), PreorderRefs(nodes[|nodes| - 1]), st, r, NodeSpec(scene, nodes[|nodes| - 1], r.state));
    }
  }

  /** Converting one mesh keeps the cache invariant. */
  lemma MeshSpecValid(scene: Scene, m: SceneMesh, st: LoadState)
    requires WellFormedMesh(m) && m.materialIndex < |scene.materials|
    requires Textures.Valid(st)
    ensures Textures.Valid(MeshSpec(scene, m, st).state)
  {
    MaterialTexturesSpec(st, scene.materials[m.materialIndex]);
  }

  /** The mesh loop of processNode keeps the cache invariant. */
  lemma RefsSpecValid(scene: Scene, refs: seq<nat>, st: LoadState)
    requires WellFormedScene(scene)
    requires forall k :: 0 <= k < |refs| ==> refs[k] < |scene.meshes|
    requires Textures.Valid(st)
    ensures Textures.Valid(RefsSpec(scene, refs, st).state)
  {
    RefsWalked(scene, refs, st);
  }

  /** The children loop of processNode keeps the cache invariant. */
  lemma ChildrenSpecValid(scene: Scene, nodes: seq<SceneNode>, st: LoadState)
    requires WellFormedScene(scene)
    requires forall k :: 0 <= k < |nodes| ==> RefsInRange(nodes[k], |scene.meshes|)
    requires Textures.Valid(st)
    ensures Textures.Valid(ChildrenSpec(scene, nodes, st).state)
  {
    ChildrenWalked(scene, nodes, st);
  }

  /** A whole subtree walk keeps the cache invariant. */
  lemma NodeSpecValid(scene: Scene, node: SceneNode, st: LoadState)
    requires WellFormedScene(scene) && RefsInRange(node, |scene.meshes|)
    requires Textures.Valid(st)
    ensures Textures.Valid(NodeSpec(scene, node, st).state)
  {
    NodeWalked(scene, node, st);
  }

  /**
   * Within one walk, two texture references with the same path get the same
   * record, so the same texture name: each path is loaded once.
   */
  lemma SharedPathSharedTexture(scene: Scene, node: SceneNode, st: LoadState, k1: nat, i1: nat, k2: nat, i2: nat)
    requires WellFormedScene(scene) && RefsInRange(node, |scene.meshes|)
    requires var w := NodeSpec(scene, node, st);
      && k1 < |w.meshes| && i1 < |w.meshes[k1].textures|
      && k2 < |w.meshes| && i2 < |w.meshes[k2].textures|
      && w.meshes[k1].textures[i1].path == w.meshes[k2].textures[i2].path
    ensures var w := NodeSpec(scene, node, st);
      w.meshes[k1].textures[i1] == w.meshes[k2].textures[i2]
  {
    NodeWalked(scene, node, st);
  }
}
