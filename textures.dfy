/**
 * The path-keyed texture cache of the model loader (textures_loaded_),
 * specified as pure functions: a linear scan for a path, one lookup-or-load
 * step, and the fold of that step over one material slot's paths
 * (loadMaterialTextures). The texture-name source (glGenTextures) is a
 * counter, nextId.
 */
module Textures {
  import opened Wrappers

  /** A loaded texture: its texture name, its type tag ("texture_diffuse", ...) and the path it was loaded from. */
  datatype Texture = Texture(id: nat, typeName: string, path: string)

  /** The cache, in load order, and the next name the texture-name source hands out. */
  datatype LoadState = LoadState(loaded: seq<Texture>, nextId: nat)

  /** Textures returned by a lookup, with the state after it. */
  datatype Loaded = Loaded(textures: seq<Texture>, state: LoadState)

  /** The scan of the cache for a path: the position of the first record with that path, if any. */
  function FindPath(loaded: seq<Texture>, path: string): (r: Option<nat>)
    ensures r.Some? ==> r.value < |loaded| && loaded[r.value].path == path
    ensures r.Some? ==> forall j :: 0 <= j < r.value ==> loaded[j].path != path
    ensures r.None? <==> forall j :: 0 <= j < |loaded| ==> loaded[j].path != path
  {
    if |loaded| == 0 then None
    else if loaded[0].path == path then Some(0)
    else
      match FindPath(loaded[1..], path)
      case None => None
      case Some(j) => Some(j + 1)
  }

  /** No two records of the cache share a path. */
  predicate NoDupPaths(loaded: seq<Texture>)
  {
    forall i, j :: 0 <= i < j < |loaded| ==> loaded[i].path != loaded[j].path
  }

  /** No two records of the cache share a texture name. */
  predicate DistinctIds(loaded: seq<Texture>)
  {
    forall i, j :: 0 <= i < j < |loaded| ==> loaded[i].id != loaded[j].id
  }

  /** The cache invariant: unique paths, unique names, and every name already handed out. */
  predicate Valid(st: LoadState)
  {
    && NoDupPaths(st.loaded)
    && DistinctIds(st.loaded)
    && forall i :: 0 <= i < |st.loaded| ==> st.loaded[i].id < st.nextId
  }

  /**
   * The cache only grows by appending, and each appended record took the next
   * name of the counter, in order.
   */
  predicate Extends(st: LoadState, st': LoadState)
  {
    && st.loaded <= st'.loaded
    && st'.nextId == st.nextId + (|st'.loaded| - |st.loaded|)
    && forall k :: |st.loaded| <= k < |st'.loaded| ==> st'.loaded[k].id == st.nextId + (k - |st.loaded|)
  }

  /** Extends, and the appended records carry typeName and a path among paths. */
  predicate Grows(st: LoadState, st': LoadState, typeName: string, paths: seq<string>)
  {
    && Extends(st, st')
    && forall k :: |st.loaded| <= k < |st'.loaded| ==> st'.loaded[k].typeName == typeName && st'.loaded[k].path in paths
  }

  /** Every texture of ts is the record the cache holds for its path. */
  predicate Resolved(loaded: seq<Texture>, ts: seq<Texture>)
  {
    forall i :: 0 <= i < |ts| ==>
      FindPath(loaded, ts[i].path).Some? && loaded[FindPath(loaded, ts[i].path).value] == ts[i]
  }

  /**
   * One iteration of loadMaterialTextures: a cached path yields the cached
   * record and leaves the state alone; a new path takes a fresh name and is
   * appended to the cache.
   */
  function LoadOne(st: LoadState, typeName: string, path: string): Loaded
  {
    match FindPath(st.loaded, path)
    case Some(j) => Loaded([st.loaded[j]], st)
    case None =>
      var t := Texture(st.nextId, typeName, path);
      Loaded([t], LoadState(st.loaded + [t], st.nextId + 1))
  }

  /** loadMaterialTextures over the paths of one slot, in order. */
  function LoadAll(st: LoadState, typeName: string, paths: seq<string>): Loaded
    decreases |paths|
  {
    if |paths| == 0 then Loaded([], st)
    else
      var r := LoadAll(st, typeName, paths[..|paths| - 1]);
      var o := LoadOne(r.state, typeName, paths[|paths| - 1]);
      Loaded(r.textures + o.textures, o.state)
  }

  /** One more path loads after the paths before it. */
  lemma LoadAllStep(st: LoadState, typeName: string, paths: seq<string>, i: nat, r: Loaded, o: Loaded)
    requires i < |paths|
    requires r == LoadAll(st, typeName, paths[..i])
    requires o == LoadOne(r.state, typeName, paths[i])
    ensures LoadAll(st, typeName, paths[..i + 1]) == Loaded(r.textures + o.textures, o.state)
  {
    assert paths[..i + 1][..i] == paths[..i];
  }

  /** A record found in a cache is still the first one found after the cache grows. */
  lemma FindPathPrefix(loaded: seq<Texture>, loaded': seq<Texture>, path: string)
    requires loaded <= loaded'
    requires FindPath(loaded, path).Some?
    ensures FindPath(loaded', path) == FindPath(loaded, path)
  {
    var j := FindPath(loaded, path).value;
    assert loaded'[j] == loaded[j];
  }

  /** What is resolved in a cache stays resolved as the cache grows. */
  lemma ResolvedPrefix(loaded: seq<Texture>, loaded': seq<Texture>, ts: seq<Texture>)
    requires loaded <= loaded'
    requires Resolved(loaded, ts)
    ensures Resolved(loaded', ts)
  {
    forall i | 0 <= i < |ts|
      ensures FindPath(loaded', ts[i].path).Some? && loaded'[FindPath(loaded', ts[i].path).value] == ts[i]
    {
      FindPathPrefix(loaded, loaded', ts[i].path);
    }
  }

  /** Extends is transitive. */
  lemma ExtendsTrans(a: LoadState, b: LoadState, c: LoadState)
    requires Extends(a, b) && Extends(b, c)
    ensures Extends(a, c)
  {
    forall k | |a.loaded| <= k < |c.loaded|
      ensures c.loaded[k].id == a.nextId + (k - |a.loaded|)
    {
      if k < |b.loaded| {
        assert c.loaded[k] == b.loaded[k];
      }
    }
  }

  /** One lookup keeps the cache invariant. */
  lemma LoadOneValid(st: LoadState, typeName: string, path: string)
    requires Valid(st)
    ensures Valid(LoadOne(st, typeName, path).state)
  {
  }

  /** One lookup returns one texture with the asked path and grows the cache by at most that path. */
  lemma LoadOneShape(st: LoadState, typeName: string, path: string)
    ensures var o := LoadOne(st, typeName, path);
      |o.textures| == 1 && o.textures[0].path == path && Grows(st, o.state, typeName, [path])
  {
  }

  /** Growth under one tag composes, the path lists concatenated. */
  lemma GrowsTrans(a: LoadState, b: LoadState, c: LoadState, typeName: string, p: seq<string>, q: seq<string>)
    requires Grows(a, b, typeName, p) && Grows(b, c, typeName, q)
    ensures Grows(a, c, typeName, p + q)
  {
    ExtendsTrans(a, b, c);
    forall k | |a.loaded| <= k < |c.loaded|
      ensures c.loaded[k].typeName == typeName && c.loaded[k].path in p + q
    {
      if k < |b.loaded| {
        assert c.loaded[k] == b.loaded[k];
      }
    }
  }

  /** loadMaterialTextures returns one texture per slot path, with that path, and grows the cache by appending. */
  lemma {:induction false} LoadAllShape(st: LoadState, typeName: string, paths: seq<string>)
    ensures |LoadAll(st, typeName, paths).textures| == |paths|
    ensures forall i :: 0 <= i < |paths| ==> LoadAll(st, typeName, paths).textures[i].path == paths[i]
    ensures Grows(st, LoadAll(st, typeName, paths).state, typeName, paths)
    decreases |paths|
  {
    if |paths| > 0 {
      var init := paths[..|paths| - 1];
      var last := paths[|paths| - 1];
      assert init + [last] == paths;
      LoadAllShape(st, typeName, init);
      var r := LoadAll(st, typeName, init);
      LoadOneShape(r.state, typeName, last);
      var o := LoadOne(r.state, typeName, last);
      GrowsTrans(st, r.state, o.state, typeName, init, [last]);
      var ts := r.textures + o.textures;
      forall i | 0 <= i < |paths|
        ensures ts[i].path == paths[i]
      {
        if i < |init| {
          assert ts[i] == r.textures[i] && paths[i] == init[i];
        }
      }
    }
  }

  /** loadMaterialTextures keeps the cache invariant. */
  lemma {:induction false} LoadAllValid(st: LoadState, typeName: string, paths: seq<string>)
    requires Valid(st)
    ensures Valid(LoadAll(st, typeName, paths).state)
    decreases |paths|
  {
    if |paths| > 0 {
      var init := paths[..|paths| - 1];
      LoadAllValid(st, typeName, init);
      LoadOneValid(LoadAll(st, typeName, init).state, typeName, paths[|paths| - 1]);
    }
  }

  /** Every texture loadMaterialTextures returns is the cache's record for its path afterwards. */
  lemma {:induction false} LoadAllResolved(st: LoadState, typeName: string, paths: seq<string>)
    ensures Resolved(LoadAll(st, typeName, paths).state.loaded, LoadAll(st, typeName, paths).textures)
    decreases |paths|
  {
    if |paths| > 0 {
      var init := paths[..|paths| - 1];
      LoadAllResolved(st, typeName, init);
      var r := LoadAll(st, typeName, init);
      var o := LoadOne(r.state, typeName, paths[|paths| - 1]);
      assert r.state.loaded <= o.state.loaded;
      ResolvedPrefix(r.state.loaded, o.state.loaded, r.textures);
      var ts := r.textures + o.textures;
      forall i | 0 <= i < |ts|
        ensures FindPath(o.state.loaded, ts[i].path).Some? && o.state.loaded[FindPath(o.state.loaded, ts[i].path).value] == ts[i]
      {
        if i < |r.textures| {
          assert ts[i] == r.textures[i];
        } else {
          var p := paths[|paths| - 1];
          assert ts[i] == o.textures[0];
          if FindPath(r.state.loaded, p).None? {
            assert o.state.loaded == r.state.loaded + [o.textures[0]];
            assert forall j :: 0 <= j < |r.state.loaded| ==> o.state.loaded[j] == r.state.loaded[j];
            assert o.state.loaded[|r.state.loaded|].path == p;
            assert FindPath(o.state.loaded, p) == Some(|r.state.loaded|);
          }
        }
      }
    }
  }

  /**
   * A path the cache already held yields the cached record: same name and the
   * type tag it was first loaded with.
   */
  lemma LoadAllCached(st: LoadState, typeName: string, paths: seq<string>)
    ensures |LoadAll(st, typeName, paths).textures| == |paths|
    ensures forall i :: 0 <= i < |paths| && FindPath(st.loaded, paths[i]).Some? ==>
      LoadAll(st, typeName, paths).textures[i] == st.loaded[FindPath(st.loaded, paths[i]).value]
  {
    var r := LoadAll(st, typeName, paths);
    LoadAllShape(st, typeName, paths);
    LoadAllResolved(st, typeName, paths);
    forall i | 0 <= i < |paths| && FindPath(st.loaded, paths[i]).Some?
      ensures r.textures[i] == st.loaded[FindPath(st.loaded, paths[i]).value]
    {
      FindPathPrefix(st.loaded, r.state.loaded, paths[i]);
    }
  }

  /**
   * A path the cache did not hold yields a record tagged typeName whose name
   * the counter handed out during this call.
   */
  lemma LoadAllFresh(st: LoadState, typeName: string, paths: seq<string>)
    ensures |LoadAll(st, typeName, paths).textures| == |paths|
    ensures forall i :: 0 <= i < |paths| && FindPath(st.loaded, paths[i]).None? ==>
      && LoadAll(st, typeName, paths).textures[i].typeName == typeName
      && st.nextId <= LoadAll(st, typeName, paths).textures[i].id < LoadAll(st, typeName, paths).state.nextId
  {
    var r := LoadAll(st, typeName, paths);
    LoadAllShape(st, typeName, paths);
    LoadAllResolved(st, typeName, paths);
    forall i | 0 <= i < |paths| && FindPath(st.loaded, paths[i]).None?
      ensures r.textures[i].typeName == typeName && st.nextId <= r.textures[i].id < r.state.nextId
    {
      var k := FindPath(r.state.loaded, paths[i]).value;
      assert r.state.loaded[k] == r.textures[i];
    }
  }

  /** When every path is cached, loading changes nothing and returns the cached records. */
  lemma {:induction false} LoadAllHits(st: LoadState, typeName: string, paths: seq<string>)
    requires forall i :: 0 <= i < |paths| ==> FindPath(st.loaded, paths[i]).Some?
    ensures LoadAll(st, typeName, paths).state == st
    ensures |LoadAll(st, typeName, paths).textures| == |paths|
    ensures forall i :: 0 <= i < |paths| ==>
      LoadAll(st, typeName, paths).textures[i] == st.loaded[FindPath(st.loaded, paths[i]).value]
    decreases |paths|
  {
    if |paths| > 0 {
      var n := |paths|;
      var init := paths[..n - 1];
      var last := paths[n - 1];
      forall i | 0 <= i < |init|
        ensures FindPath(st.loaded, init[i]).Some?
      {
        assert init[i] == paths[i];
      }
      LoadAllHits(st, typeName, init);
      var r := LoadAll(st, typeName, init);
      var o := LoadOne(st, typeName, last);
      var j := FindPath(st.loaded, last).value;
      assert o == Loaded([st.loaded[j]], st);
      var ts := r.textures + o.textures;
      forall i | 0 <= i < n
        ensures ts[i] == st.loaded[FindPath(st.loaded, paths[i]).value]
      {
        if i < n - 1 {
          assert ts[i] == r.textures[i] && paths[i] == init[i];
        }
      }
    }
  }

  /**
   * Loading the same paths again, under any tag, is all cache hits: it returns
   * the same textures and leaves the cache and the counter as they were.
   */
  lemma LoadAllAgain(st: LoadState, typeName: string, typeName': string, paths: seq<string>)
    ensures var r := LoadAll(st, typeName, paths);
      LoadAll(r.state, typeName', paths) == r
  {
    var r := LoadAll(st, typeName, paths);
    LoadAllShape(st, typeName, paths);
    LoadAllResolved(st, typeName, paths);
    LoadAllHits(r.state, typeName', paths);
    var r' := LoadAll(r.state, typeName', paths);
    assert r'.textures == r.textures;
  }
}
