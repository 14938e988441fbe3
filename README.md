# Model loader of the LearnOpenGL tutorials, in Dafny

This project models the model loader `Model` of the OpenGL tutorials
(`OpenGLTutorials/Model.cpp`). The loader takes the scene an asset importer
produced and turns it into renderable meshes:

- it records the model's directory, unless the import failed;
- it walks the node tree in pre-order, converting each referenced mesh;
- for each mesh it copies the vertices, flattens the faces' index lists and
  collects the textures of four material slots;
- it loads each texture file at most once through a path-keyed cache,
  `textures_loaded_`.

The model is imperative where the loader is:

- `ModelLoader.Model` is a class with the loader's fields: `meshes`,
  `texturesLoaded` and `directory`.
- Its methods `LoadModel`, `ProcessNode`, `ProcessMesh` and
  `LoadMaterialTextures` update those fields in place, with the loops of the
  original.
- Each method is proved against a pure specification function: `NodeSpec`,
  `MeshSpec` or `LoadAll`.
- The lemmas in `Textures` and `Loading` prove what those functions promise:
  - a pre-order walk;
  - one texture per slot path, in slot order;
  - the first load of a path wins;
  - new paths get fresh texture names;
  - the cache never holds two records with the same path;
  - equal paths share a texture;
  - loading again changes nothing.

Modules:

- `Wrappers`: the `Option` type.
- `SceneData`: the importer's output as plain values (`Scene`, `SceneNode`,
  `SceneMesh`, `Material`), the import-failure guard, and pre-order mesh
  references.
- `Paths`: the directory prefix `substr(0, find_last_of('/'))` and the
  texture file name `directory + '/' + path`.
- `Formats`: the channel-count → pixel-format table of `textureFromFile`.
- `Textures`: the cache as pure functions. `FindPath` is the linear scan,
  `LoadOne` is one iteration of `loadMaterialTextures`, and `LoadAll` is the
  whole call. The texture-name source is the counter `nextId`.
- `Geometry`: the vertex loop and the face loop of `processMesh`.
- `Graphics`: the texture-name counter (`glGenTextures`) and the uploads
  (`glTexImage2D`), as the class `Gl`.
- `Loading`:
  - the specification of a mesh's textures (four slot lookups in the order
    diffuse, specular, height, ambient);
  - the specification of a converted mesh and of the tree walk;
  - the uploads caused by newly loaded textures;
  - the lemmas about all of these.
- `ModelLoader`: `textureFromFile` and the class `Model`.

Inputs the original gets from foreign code are parameters:

- The imported scene is an `Option<Scene>` (`None` is a null `aiScene`).
- The image decoder is a map `files` from file name to decoded `Image`. A
  missing name is a file that does not decode.
- `glGenTextures` is the counter `Gl.nextTexture`. The constructor starts it
  at 1 because OpenGL texture names are non-zero.

The loader indexes the scene without checks, so the model states what that
indexing needs as a precondition (`WellFormedScene`):

- every node's mesh index is in range and every mesh's material index is in
  range, which the importer guarantees;
- every mesh has its normal, tangent and bitangent arrays, each with one
  entry per vertex. The importer does not promise this: an absent array is a
  null pointer, and the loader dereferences it anyway (see "## Left out").

## Model

| member | source | states |
|---|---|---|
| Paths.LastSlash | OpenGLTutorials/Model.cpp:32 | the result is the position of a '/' with no '/' after it, and it is None exactly when the string has no '/' (npos) |
| Paths.Directory | OpenGLTutorials/Model.cpp:32 | the directory is a prefix of the path. When the path has a '/', the directory ends right before its last '/'. When it has none, the directory is the whole path |
| Paths.DirectoryOfFilename | OpenGLTutorials/Model.cpp:169-170 | a texture file name built from a directory and a slash-free path has that directory as its own directory |
| Paths.DirectorySplit | OpenGLTutorials/Model.cpp:32 | a path with a '/' is its directory, a '/' and the remainder, so the join of textureFromFile reverses the directory split |
| Formats.PixelFormatFor | OpenGLTutorials/Model.cpp:180-186 | a format is chosen exactly for 1, 3 and 4 channels, and the chosen format carries that many channels |
| Formats.PixelFormatRoundTrip | OpenGLTutorials/Model.cpp:181-186 | every format is the one the table picks for its own channel count |
| Textures.FindPath | OpenGLTutorials/Model.cpp:143-151 | the scan finds the first record whose path matches, and finds nothing exactly when no record matches |
| Textures.LoadOneShape | OpenGLTutorials/Model.cpp:142-161 | one iteration returns one texture with the asked path. The cache grows only by appending records tagged typeName with that path, each named by the next counter value |
| Textures.LoadOneValid | OpenGLTutorials/Model.cpp:142-161 | one iteration keeps the cache invariant: unique paths, unique names, and every name already handed out |
| Textures.LoadAllShape | OpenGLTutorials/Model.cpp:136-163 | loadMaterialTextures returns GetTextureCount(type) textures, the i-th carrying the i-th slot path. The cache only grows by appending records tagged typeName, with slot paths and consecutive fresh names |
| Textures.LoadAllValid | OpenGLTutorials/Model.cpp:136-163 | loadMaterialTextures keeps the cache free of duplicate paths and duplicate names |
| Textures.LoadAllResolved | OpenGLTutorials/Model.cpp:142-161 | every returned texture is, afterwards, the cache's record for its path |
| Textures.LoadAllCached | OpenGLTutorials/Model.cpp:143-150 | a path already cached yields the cached record: same name, and the type tag it was first loaded with |
| Textures.LoadAllFresh | OpenGLTutorials/Model.cpp:152-161 | a path not cached yields a record tagged typeName, whose name the counter handed out during this call |
| Textures.LoadAllHits | OpenGLTutorials/Model.cpp:142-151 | when every slot path is cached, the cache and the counter are unchanged, and the cached records are returned in slot order |
| Textures.LoadAllAgain | OpenGLTutorials/Model.cpp:134-164 | loading the same slot again, under any tag, returns the same textures and changes nothing (idempotence) |
| Geometry.VerticesUpTo | OpenGLTutorials/Model.cpp:59-100 | the first n input vertices give exactly n output vertices |
| Geometry.VerticesUpToAt | OpenGLTutorials/Model.cpp:59-100 | output vertex i is built from entry i of the position, normal, UV, tangent and bitangent arrays |
| Geometry.ExtractVertices | OpenGLTutorials/Model.cpp:59-100 | the vertex loop yields mNumVertices vertices. Vertex i is built from entry i of each array. When UV channel 0 is absent, every texture coordinate is (0,0) |
| Geometry.FlattenLength | OpenGLTutorials/Model.cpp:102-107 | the index list is as long as the sum of the faces' mNumIndices |
| Geometry.FlattenAt | OpenGLTutorials/Model.cpp:102-107 | index j of face i sits in the index list right after the indices of all earlier faces |
| Geometry.FlattenIndices | OpenGLTutorials/Model.cpp:102-107 | the face loop yields the in-order concatenation of the faces' index lists, of length the sum of their mNumIndices |
| Graphics.Gl.GenTexture | OpenGLTutorials/Model.cpp:172-173 | each texture name handed out is the counter's value, and the counter advances past it. No upload changes |
| Graphics.Gl.TexImage2D | OpenGLTutorials/Model.cpp:188-189 | the bound texture now holds an image in the given format, and nothing else changes |
| Loading.UploadsAt | OpenGLTutorials/Model.cpp:176-200 | among textures with distinct names, one whose file decodes holds its image in the format the table picks. One whose file does not decode keeps what its name held |
| Loading.UploadsUntouched | OpenGLTutorials/Model.cpp:197-200 | uploads leave every other texture name as it was |
| Loading.LoadNewPaths | OpenGLTutorials/Model.cpp:152-161 | every record loadMaterialTextures appends has a path the cache did not hold before the call |
| Loading.MaterialTexturesSpec | OpenGLTutorials/Model.cpp:117-128 | a mesh's textures are, in order, the paths of the DIFFUSE, SPECULAR, HEIGHT and AMBIENT slots. Each is the cache's record for its path, and a path cached before yields the old record. Every added record has one of the material's slot paths and carries the tag of the first slot listing it: HEIGHT paths are tagged "texture_normal", AMBIENT paths "texture_height". The cache only grows by appending and keeps its invariant |
| Loading.MeshWalked | OpenGLTutorials/Model.cpp:53-131 | converting one mesh gives its vertices, its flattened indices and one texture per slot path, each the cache's record for its path |
| Loading.RefsWalked | OpenGLTutorials/Model.cpp:41-45 | the node's mesh loop converts the referenced scene meshes in listed order, one converted mesh each |
| Loading.NodeWalked | OpenGLTutorials/Model.cpp:38-50 | processNode appends one converted mesh per mesh reference of the subtree, in pre-order (the node's meshes before its children, children in listed order). Every texture is the final cache's record for its path. The cache only grows by appending and keeps its invariant |
| Loading.ChildrenWalked | OpenGLTutorials/Model.cpp:48-49 | the children loop walks the children's subtrees left to right, in pre-order |
| Loading.MeshSpecValid | OpenGLTutorials/Model.cpp:117-128 | converting one mesh keeps the cache free of duplicate paths and duplicate names |
| Loading.RefsSpecValid | OpenGLTutorials/Model.cpp:41-45 | the node's mesh loop keeps the cache invariant |
| Loading.ChildrenSpecValid | OpenGLTutorials/Model.cpp:48-49 | the children loop keeps the cache invariant |
| Loading.NodeSpecValid | OpenGLTutorials/Model.cpp:38-50 | walking a subtree keeps the cache invariant |
| Loading.SharedPathSharedTexture | OpenGLTutorials/Model.cpp:142-161 | within one load, two mesh textures with the same path are the same record, so they have the same texture name |
| ModelLoader.TextureFromFile | OpenGLTutorials/Model.cpp:167-204 | the result is a fresh name from the counter. The file read is directory + '/' + path. When it decodes, its image is uploaded under that name in the table's format, and otherwise nothing is uploaded |
| ModelLoader.Model.constructor | OpenGLTutorials/Model.cpp:5-9 | the model starts empty and then loads. After a failed import it stays empty. Otherwise its meshes are the pre-order walk of the whole tree from an empty cache. The cache invariant holds and the uploads are those of the loaded textures |
| ModelLoader.Model.LoadModel | OpenGLTutorials/Model.cpp:21-35 | after a failed import (null scene, incomplete flag, or null root) nothing changes. Otherwise the directory is the path's prefix before its last '/'. The meshes are the old ones followed by the walk of the root. The cache only grows and keeps its invariant |
| ModelLoader.Model.ProcessNode | OpenGLTutorials/Model.cpp:38-50 | the meshes are the old ones followed by the node's walk. The cache is the one the walk leaves, it only grows by appending and keeps its invariant, and the uploads are those of the new textures |
| ModelLoader.Model.ProcessMeshes | OpenGLTutorials/Model.cpp:41-45 | the mesh loop appends the converted meshes of the node's references, in listed order, and keeps the cache invariant |
| ModelLoader.Model.ProcessChildren | OpenGLTutorials/Model.cpp:48-49 | the children loop appends the children's walks, left to right, and keeps the cache invariant |
| ModelLoader.Model.ProcessMesh | OpenGLTutorials/Model.cpp:53-131 | the returned mesh and the new cache are those of the mesh specification: vertices, flattened indices, and the textures of the four slots through the cache. The cache invariant is kept |
| ModelLoader.Model.LoadMaterialTextures | OpenGLTutorials/Model.cpp:134-164 | the returned textures and the new cache are those of loading the slot's paths in order through the cache. The cache only grows by appending and keeps its invariant, and each new texture's image is uploaded |
| ModelLoader.Model.ScanLoaded | OpenGLTutorials/Model.cpp:142-151 | the scan finds the first cached record with the path, or nothing when no record has it |

## Left out

- Assimp's `ReadFile` and its post-processing (triangulation, UV flip,
  tangent generation) are foreign library code. The imported scene is an
  input, and the importer's error string is not modelled.
- stb_image decoding is foreign code. It is the `files` map. A decoded
  `Image` carries the width, the height and the channel count. Only the
  channel count is used, and the pixel data is not modelled.
- SceneData.WellFormedScene: a mesh whose normal, tangent or bitangent
  array is absent (a null pointer) is not modelled. `processMesh` reads
  those arrays without a null check (Model.cpp lines 71-73 and 88-96), which
  is undefined behaviour, and `SceneMesh` holds plain sequences that cannot
  be null. The precondition is also wider than the loader needs: it asks
  this of every mesh of the scene, including meshes no node references.
- `glBindTexture`, `glGenerateMipmap`, `glTexParameteri` (wrap mode `param`,
  filters) and `stbi_image_free` have no effect the loader observes. Only
  the texture name and the format of each upload are kept.
- Formats.PixelFormatFor: for a channel count other than 1, 3 or 4 the
  original passes an uninitialised `format` to `glTexImage2D`. The model
  records this as `None` and says nothing about what the driver does with it.
- Console messages (`ERROR::ASSIMP::`, "Texture failed to load") are
  left out.
- Vertex attributes are `real` values that are only copied. No
  single-precision behaviour is modelled.
- Graphics.Gl.GenTexture: GLuint names and the `unsigned int` loop counters
  are unbounded naturals. Wrap-around after 2^32 names or elements is not
  modelled.
- ModelLoader.Model.LoadMaterialTextures: `strcmp` on `aiString` data is
  modelled as string equality, so a path with an embedded NUL character is
  not modelled.
- `Model::draw` (GPU draw delegation) and `Model::info` (console listing) are
  left out.
- The `Mesh` constructor and its GPU upload are not part of this model. A
  converted mesh is the value `Geometry.Mesh` handed to it.
- `gammaCorrection` is stored by the constructor but never read by the
  loader, and textureFromFile's `gamma` parameter is unused.
- `OpenGLTutorials/Shader.cpp` is not part of this model. It reads files,
  compiles and links through OpenGL, and forwards uniforms. Its geometry
  stage (Shader.cpp lines 65-71) is created and compiled, but
  `glShaderSource` is never called for it.
- ModelLoader.Model.ProcessNode: the two loops of `processNode` are the
  helper methods `ProcessMeshes` and `ProcessChildren`. Each keeps the
  original loop and its order, and they are split only to keep each proof
  small.
