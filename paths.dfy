/**
 * The two string operations of the loader: the model directory taken from the
 * model path, and the texture file name built from it.
 */
module Paths {
  import opened Wrappers

  /** std::string::find_last_of('/'): the position of the last slash, or None (npos). */
  function LastSlash(s: string): (r: Option<nat>)
    ensures r.Some? ==> r.value < |s| && s[r.value] == '/'
    ensures r.Some? ==> forall k :: r.value < k < |s| ==> s[k] != '/'
    ensures r.None? <==> '/' !in s
  {
    if |s| == 0 then None
    else if s[|s| - 1] == '/' then Some(|s| - 1)
    else
      assert s == s[..|s| - 1] + [s[|s| - 1]];
      LastSlash(s[..|s| - 1])
  }

  /**
   * The model's directory: path.substr(0, path.find_last_of('/')). With no
   * slash, substr(0, npos) is the whole path.
   */
  function Directory(path: string): (d: string)
    ensures d <= path
    ensures '/' !in path ==> d == path
    ensures '/' in path ==> |d| < |path| && path[|d|] == '/' && '/' !in path[|d| + 1..]
  {
    match LastSlash(path)
    case None => path
    case Some(k) => path[..k]
  }

  /** The file a texture is read from: directory + '/' + path. */
  function TextureFilename(directory: string, path: string): string
  {
    directory + "/" + path
  }

  /** A texture path without a slash, joined to a directory, has that directory as its own directory. */
  lemma DirectoryOfFilename(directory: string, name: string)
    requires '/' !in name
    ensures Directory(TextureFilename(directory, name)) == directory
  {
    var f := TextureFilename(directory, name);
    assert f[|directory|] == '/';
  }

  /** A model path is its directory, a slash and the file's own name, whenever it has a slash. */
  lemma DirectorySplit(path: string)
    requires '/' in path
    ensures path == TextureFilename(Directory(path), path[|Directory(path)| + 1..])
  {
    var d := Directory(path);
    assert path == path[..|d|] + [path[|d|]] + path[|d| + 1..];
  }
}
