/**
 * The model loader as the object it is: a Model holds the converted meshes,
 * the texture cache and the model directory, and its methods fill them in
 * place. Each method is proved against the functions of Loading, so the
 * lemmas there describe what the methods do.
 */
module ModelLoader {
  import opened Wrappers
  import opened SceneData
  import opened Paths
  import opened Formats
  import opened Textures
  import opened Geometry
  import opened Graphics
  import opened Loading

  /**
   * textureFromFile: join the directory and the path, take a fresh texture
   * name, and upload the decoded image, if any, in the format its channel
   * count selects. A file that does not decode uploads nothing.
   */
  method TextureFromFile(path: string, directory: string, gl: Gl, files: map<string, Image>) returns (id: nat)
    modifies gl
    ensures id == old(gl.nextTexture) && gl.nextTexture == id + 1
    ensures gl.images == Upload(old(gl.images), files, TextureFilename(directory, path), id)
  {
    var filename := TextureFilename(directory, path);
    id := gl.GenTexture();
    if filename in files {
      var format := PixelFormatFor(files[filename].channels);
      gl.TexImage2D(id, format);
    }
  }

  class Model {
    /** meshes_: the converted meshes, in load order. */
    var meshes: seq<Mesh>
    /** textures_loaded_: every texture loaded so far, searched by path. */
    var texturesLoaded: seq<Texture>
    /** directory_: where texture paths are resolved from. */
    var directory: string
    const gammaCorrection: bool

    /** The cache together with the texture-name counter it draws from. */
    ghost function State(gl: Gl): LoadState
      reads this, gl
    {
      LoadState(texturesLoaded, gl.nextTexture)
    }

    /** The cache invariant: no two records share a path or a name, and every name was handed out. */
    ghost predicate Valid(gl: Gl)
      reads this, gl
    {
      Textures.Valid(State(gl))
    }

    /** Model(path, gamma): an empty model, then loadModel. */
    constructor (path: string, gamma: bool, imported: Option<Scene>, gl: Gl, files: map<string, Image>)
      requires !ImportFailed(imported) ==> WellFormedScene(imported.value)
      modifies gl
      ensures gammaCorrection == gamma
      ensures Valid(gl)
      ensures ImportFailed(imported) ==>
        && meshes == [] && texturesLoaded == [] && directory == ""
        && gl.nextTexture == old(gl.nextTexture) && gl.images == old(gl.images)
      ensures !ImportFailed(imported) ==>
        && directory == Directory(path)
        && NodeSpec(imported.value, imported.value.root.value, LoadState([], old(gl.nextTexture))) == Walk(meshes, State(gl))
        && gl.images == Uploads(old(gl.images), files, directory, texturesLoaded)
    {
      gammaCorrection := gamma;
      meshes := [];
      texturesLoaded := [];
      directory := "";
      new;
      LoadModel(path, imported, gl, files);
    }

    /**
     * loadModel: on a failed import nothing changes (the importer's message
     * goes to the console); otherwise the directory is taken from the path and
     * the node tree is walked from the root.
     */
    method LoadModel(path: string, imported: Option<Scene>, gl: Gl, files: map<string, Image>)
      requires Valid(gl)
      requires !ImportFailed(imported) ==> WellFormedScene(imported.value)
      modifies this, gl
      ensures Valid(gl)
      ensures ImportFailed(imported) ==>
        && meshes == old(meshes) && texturesLoaded == old(texturesLoaded) && directory == old(directory)
        && gl.nextTexture == old(gl.nextTexture) && gl.images == old(gl.images)
      ensures old(texturesLoaded) <= texturesLoaded
      ensures !ImportFailed(imported) ==>
        && directory == Directory(path)
        && (var w := NodeSpec(imported.value, imported.value.root.value, old(State(gl)));
            meshes == old(meshes) + w.meshes && State(gl) == w.state)
        && gl.images == Uploads(old(gl.images), files, directory, texturesLoaded[|old(texturesLoaded)|..])
    {
      if imported.None? || imported.value.flags & FlagIncomplete != 0 || imported.value.root.None? {
        return;
      }
      var scene := imported.value;
      directory := Directory(path);
      ProcessNode(scene.root.value, scene, gl, files);
    }

    /**
     * processNode: convert the node's meshes in listed order, appending each to
     * meshes, then process the children in listed order.
     */
    method ProcessNode(node: SceneNode, scene: Scene, gl: Gl, files: map<string, Image>)
      requires WellFormedScene(scene) && RefsInRange(node, |scene.meshes|)
      modifies this`meshes, this`texturesLoaded, gl
      ensures var w := NodeSpec(scene, node, old(State(gl)));
        meshes == old(meshes) + w.meshes && State(gl) == w.state
      ensures old(texturesLoaded) <= texturesLoaded
      ensures old(Valid(gl)) ==> Valid(gl)
      ensures gl.images == Uploads(old(gl.images), files, directory, texturesLoaded[|old(texturesLoaded)|..])
      decreases node, 1
    {
      ghost var loaded0 := texturesLoaded;
      ProcessMeshes(node.meshes, scene, gl, files);
      ghost var loaded1 := texturesLoaded;
      ProcessChildren(node.children, scene, gl, files);
      UploadsGrow(old(gl.images), files, directory, loaded0, loaded1, texturesLoaded);
      if old(Valid(gl)) {
        NodeSpecValid(scene, node, old(State(gl)));
      }
    }

    /** The first loop of processNode: the node's meshes, converted in listed order. */
    method ProcessMeshes(refs: seq<nat>, scene: Scene, gl: Gl, files: map<string, Image>)
      requires WellFormedScene(scene)
      requires forall k :: 0 <= k < |refs| ==> refs[k] < |scene.meshes|
      modifies this`meshes, this`texturesLoaded, gl
      ensures var r := RefsSpec(scene, refs, old(State(gl)));
        meshes == old(meshes) + r.meshes && State(gl) == r.state
      ensures old(texturesLoaded) <= texturesLoaded
      ensures old(Valid(gl)) ==> Valid(gl)
      ensures gl.images == Uploads(old(gl.images), files, directory, texturesLoaded[|old(texturesLoaded)|..])
    {
      ghost var st0 := State(gl);
      ghost var images0 := gl.images;
      ghost var w := Walk([], st0);
      var i := 0;
      while i < |refs|
        invariant 0 <= i <= |refs|
        invariant w == RefsSpec(scene, refs[..i], st0)
        invariant meshes == old(meshes) + w.meshes && State(gl) == w.state
        invariant st0.loaded <= texturesLoaded
        invariant gl.images == Uploads(images0, files, directory, texturesLoaded[|st0.loaded|..])
      {
        ghost var loaded1 := texturesLoaded;
        RefsSpecStep(scene, refs, i, st0);
        var mesh := ProcessMesh(scene.meshes[refs[i]], scene, gl, files);
        meshes := meshes + [mesh];
        UploadsGrow(images0, files, directory, st0.loaded, loaded1, texturesLoaded);
        w := Walk(w.meshes + [mesh], State(gl));
        i := i + 1;
      }
      assert refs[..i] == refs;
      if Textures.Valid(st0) {
        RefsSpecValid(scene, refs, st0);
      }
    }

    /** The second loop of processNode: each child's subtree, in listed order. */
    method ProcessChildren(nodes: seq<SceneNode>, scene: Scene, gl: Gl, files: map<string, Image>)
      requires WellFormedScene(scene)
      requires forall k :: 0 <= k < |nodes| ==> RefsInRange(nodes[k], |scene.meshes|)
      modifies this`meshes, this`texturesLoaded, gl
      ensures var w := ChildrenSpec(scene, nodes, old(State(gl)));
        meshes == old(meshes) + w.meshes && State(gl) == w.state
      ensures old(texturesLoaded) <= texturesLoaded
      ensures old(Valid(gl)) ==> Valid(gl)
      ensures gl.images == Uploads(old(gl.images), files, directory, texturesLoaded[|old(texturesLoaded)|..])
      decreases nodes, 0
    {
      ghost var st0 := State(gl);
      ghost var images0 := gl.images;
      ghost var n0 := |texturesLoaded|;
      var c := 0;
      while c < |nodes|
        invariant 0 <= c <= |nodes|
        invariant var w := ChildrenSpec(scene, nodes[..c], st0); meshes == old(meshes) + w.meshes && State(gl) == w.state
        invariant st0.loaded <= texturesLoaded
        invariant gl.images == Uploads(images0, files, directory, texturesLoaded[n0..])
      {
        ghost var loaded1 := texturesLoaded;
        ChildrenSpecStep(scene, nodes, c, st0);
        ProcessNode(nodes[c], scene, gl, files);
        UploadsGrow(images0, files, directory, st0.loaded, loaded1, texturesLoaded);
        c := c + 1;
      }
      assert nodes[..c] == nodes;
      if Textures.Valid(st0) {
        ChildrenSpecValid(scene, nodes, st0);
      }
    }

    /**
     * processMesh: the vertex loop, the face loop, and the textures of the
     * diffuse, specular, height and ambient slots, appended in that order.
     */
    method ProcessMesh(m: SceneMesh, scene: Scene, gl: Gl, files: map<string, Image>) returns (mesh: Mesh)
      requires WellFormedMesh(m) && m.materialIndex < |scene.materials|
      modifies this`texturesLoaded, gl
      ensures var b := MeshSpec(scene, m, old(State(gl))); mesh == b.mesh && State(gl) == b.state
      ensures old(texturesLoaded) <= texturesLoaded
      ensures old(Valid(gl)) ==> Valid(gl)
      ensures gl.images == Uploads(old(gl.images), files, directory, texturesLoaded[|old(texturesLoaded)|..])
    {
      ghost var images0, loaded0 := gl.images, texturesLoaded;
      var vertices := ExtractVertices(m);
      var indices := FlattenIndices(m.faces);
      var material := scene.materials[m.materialIndex];
      var diffuseMaps := LoadMaterialTextures(material, Diffuse, "texture_diffuse", gl, files);
      ghost var loaded1 := texturesLoaded;
      var textures := diffuseMaps;
      var specularMaps := LoadMaterialTextures(material, Specular, "texture_specular", gl, files);
      ghost var loaded2 := texturesLoaded;
      UploadsGrow(images0, files, directory, loaded0, loaded1, loaded2);
      textures := textures + specularMaps;
      var normalMaps := LoadMaterialTextures(material, Height, "texture_normal", gl, files);
      ghost var loaded3 := texturesLoaded;
      UploadsGrow(images0, files, directory, loaded0, loaded2, loaded3);
      textures := textures + normalMaps;
      var heightMaps := LoadMaterialTextures(material, Ambient, "texture_height", gl, files);
      UploadsGrow(images0, files, directory, loaded0, loaded3, texturesLoaded);
      textures := textures + heightMaps;
      mesh := Mesh(vertices, indices, textures);
      if old(Valid(gl)) {
        MeshSpecValid(scene, m, old(State(gl)));
      }
    }

    /**
     * loadMaterialTextures: for each path of the slot, scan the cache; a hit
     * returns the cached record, a miss loads the file under a fresh name,
     * tags it typeName and appends it to the result and to the cache.
     */
    method LoadMaterialTextures(mat: Material, ty: TextureType, typeName: string, gl: Gl, files: map<string, Image>)
      returns (textures: seq<Texture>)
      modifies this`texturesLoaded, gl
      ensures var r := LoadAll(old(State(gl)), typeName, SlotPaths(mat, ty)); textures == r.textures && State(gl) == r.state
      ensures old(texturesLoaded) <= texturesLoaded
      ensures old(Valid(gl)) ==> Valid(gl)
      ensures gl.images == Uploads(old(gl.images), files, directory, texturesLoaded[|old(texturesLoaded)|..])
    {
      ghost var st0 := State(gl);
      ghost var images0 := gl.images;
      var paths := SlotPaths(mat, ty);
      textures := [];
      ghost var r := Loaded([], st0);
      var i := 0;
      while i < |paths|
        invariant 0 <= i <= |paths|
        invariant r == LoadAll(st0, typeName, paths[..i])
        invariant textures == r.textures && State(gl) == r.state
        invariant st0.loaded <= texturesLoaded
        invariant gl.images == Uploads(images0, files, directory, texturesLoaded[|st0.loaded|..])
      {
        var str := paths[i];
        ghost var before := State(gl);
        var found := ScanLoaded(str);
        ghost var o := LoadOne(before, typeName, str);
        if found.Some? {
          textures := textures + [texturesLoaded[found.value]];
        } else {
          var id := TextureFromFile(str, directory, gl, files);
          var texture := Texture(id, typeName, str);
          textures := textures + [texture];
          UploadsSnoc(images0, files, directory, st0.loaded, texturesLoaded, texture);
          texturesLoaded := texturesLoaded + [texture];
        }
        LoadAllStep(st0, typeName, paths, i, r, o);
        r := Loaded(r.textures + o.textures, o.state);
        i := i + 1;
      }
      assert paths[..i] == paths;
      if Textures.Valid(st0) {
        LoadAllValid(st0, typeName, paths);
      }
    }

    /**
     * The scan at the head of each loadMaterialTextures iteration: the first
     * cached record with the path, if any.
     */
    method ScanLoaded(path: string) returns (found: Option<nat>)
      ensures found == FindPath(texturesLoaded, path)
    {
      found := None;
      var j := 0;
      while j < |texturesLoaded|
        invariant 0 <= j <= |texturesLoaded|
        invariant forall k :: 0 <= k < j ==> texturesLoaded[k].path != path
      {
        if texturesLoaded[j].path == path {
          found := Some(j);
          return;
        }
        j := j + 1;
      }
    }
  }
}
