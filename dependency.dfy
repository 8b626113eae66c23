/**
 * A resolved dependency as an object: the images its last build produced, and the
 * dependency cache of the active generated config, shared by all dependencies, which
 * records the directory hash each dependency was last processed with.
 *
 * Hashing the dependency's directory, the working-directory calls, saving the generated
 * config and the kube, build and deploy controllers are calls out of the model: their
 * answers come in as `Effects`.
 */
module DependencyObject {
  import opened Wrappers
  import opened Errors

  /** The active generated config's dependency cache: the directory hash recorded per dependency ID. */
  class Cache {
    var dependencies: map<string, string>

    constructor(dependencies: map<string, string>)
      ensures this.dependencies == dependencies
    {
      this.dependencies := dependencies;
    }
  }

  /** The answers of the calls one operation on a dependency makes out of the model. */
  datatype Effects = Effects(
    /** hashing the dependency's directory (`.git` and `.devspace` excluded) */
    hash: Result<string, Error>,
    /** `os.Getwd` */
    getwd: Result<string, Error>,
    /** `os.Chdir` into the dependency's local path */
    chdir: Option<Error>,
    /** creating the deploy namespaces */
    namespaces: Option<Error>,
    /** the build controller: the images built, by image name */
    build: Result<map<string, string>, Error>,
    /** a saver and a generated config are present */
    canSave: bool,
    /** saving the generated config after images were built */
    saveBuilt: Option<Error>,
    /** the deploy controller's deploy */
    deploy: Option<Error>,
    /** saving the generated config after the deploy */
    saveDeployed: Option<Error>,
    /** the deploy controller's render */
    render: Option<Error>)

  /** `changeWorkingDirectory`: the directory to change back to, or the wrapped error. */
  function ChangeWorkingDirectory(fx: Effects): (r: Result<string, Error>)
    ensures r.Success? <==> fx.getwd.Success? && fx.chdir.None?
    ensures r.Success? ==> r.value == fx.getwd.value
    ensures fx.getwd.Failure? ==> r == Failure(Wrapped("getwd", fx.getwd.error))
    ensures fx.getwd.Success? && fx.chdir.Some? ==> r == Failure(Wrapped("change working directory", fx.chdir.value))
  {
    match fx.getwd
    case Failure(e) => Failure(Wrapped("getwd", e))
    case Success(cwd) =>
      if fx.chdir.Some? then Failure(Wrapped("change working directory", fx.chdir.value)) else Success(cwd)
  }

  /** The hash cached for `id`; a missing entry reads as the empty string. */
  function CachedHash(cache: map<string, string>, id: string): string
  {
    if id in cache then cache[id] else ""
  }

  /** `prepare` skips the dependency: not forced, and the directory hash is the one cached. */
  predicate Unchanged(cache: map<string, string>, id: string, force: bool, hash: string)
  {
    !force && hash == CachedHash(cache, id)
  }

  /**
   * `prepare` on the cache's dependency map: the new map, the directory to change back
   * to ("" when the dependency is skipped), and the error.
   */
  function Prepared(cache: map<string, string>, id: string, force: bool, fx: Effects)
    : (r: (map<string, string>, string, Option<Error>))
    ensures r.0 == cache || (fx.hash.Success? && r.0 == cache[id := fx.hash.value])
    ensures r.2.None? && r.1 != "" ==> fx.hash.Success? && id in r.0 && r.0[id] == fx.hash.value
    ensures r.2.Some? ==> r.1 == ""
  {
    match fx.hash
    case Failure(e) => (cache, "", Some(Wrapped("hash directory", e)))
    case Success(h) =>
      if Unchanged(cache, id, force, h) then (cache, "", None)
      else
        var c := cache[id := h];
        match ChangeWorkingDirectory(fx)
        case Success(cwd) => (c, cwd, None)
        case Failure(e) => (c, "", Some(e))
  }

  /** A failed hash leaves the cache alone and is reported wrapped. */
  lemma PrepareHashFails(cache: map<string, string>, id: string, force: bool, fx: Effects)
    requires fx.hash.Failure?
    ensures Prepared(cache, id, force, fx) == (cache, "", Some(Wrapped("hash directory", fx.hash.error)))
  {
  }

  /** Unforced, with the directory unchanged since the hash was cached, nothing happens and nothing fails. */
  lemma PrepareSkips(cache: map<string, string>, id: string, fx: Effects)
    requires fx.hash.Success? && CachedHash(cache, id) == fx.hash.value
    ensures Prepared(cache, id, false, fx) == (cache, "", None)
  {
  }

  /**
   * Otherwise the new hash is recorded before the directory is changed, so it stays
   * recorded when the change fails.
   */
  lemma PrepareRecords(cache: map<string, string>, id: string, force: bool, fx: Effects)
    requires fx.hash.Success? && !Unchanged(cache, id, force, fx.hash.value)
    ensures Prepared(cache, id, force, fx).0 == cache[id := fx.hash.value]
    ensures ChangeWorkingDirectory(fx).Failure? ==> Prepared(cache, id, force, fx).2 == Some(ChangeWorkingDirectory(fx).error)
    ensures ChangeWorkingDirectory(fx).Success? ==> Prepared(cache, id, force, fx).1 == fx.getwd.value
  {
  }

  /** Preparing again, unforced, over the same directory hash skips the dependency. */
  lemma PrepareTwice(cache: map<string, string>, id: string, force: bool, fx: Effects, fx2: Effects)
    requires fx.hash.Success? && fx2.hash == fx.hash
    ensures var c := Prepared(cache, id, force, fx).0;
      Prepared(c, id, false, fx2) == (c, "", None)
  {
    var c := Prepared(cache, id, force, fx).0;
    assert CachedHash(c, id) == fx.hash.value;
  }

  /** After the entry is deleted, an unforced prepare with a non-empty hash processes the dependency again. */
  lemma PurgedIsPrepared(cache: map<string, string>, id: string, fx: Effects)
    requires fx.hash.Success? && fx.hash.value != ""
    ensures Prepared(cache - {id}, id, false, fx).0 == (cache - {id})[id := fx.hash.value]
  {
  }

  /** The build is run: neither the caller nor the dependency's config skips it. */
  predicate Builds(configSkipBuild: bool, skipBuild: bool)
  {
    !skipBuild && !configSkipBuild
  }

  /** What `buildImages` returns. */
  function Images(configSkipBuild: bool, skipBuild: bool, fx: Effects): (r: Result<map<string, string>, Error>)
    ensures !Builds(configSkipBuild, skipBuild) ==> r == Success(map[])
    ensures Builds(configSkipBuild, skipBuild) && fx.build.Failure? ==> r == Failure(fx.build.error)
    ensures r.Success? && Builds(configSkipBuild, skipBuild) ==> fx.build == Success(r.value)
    ensures Builds(configSkipBuild, skipBuild) && fx.build.Success? && r.Failure? ==>
      |fx.build.value| > 0 && fx.canSave && fx.saveBuilt.Some?
      && r.error == External("Error saving generated config: " + Text(fx.saveBuilt.value))
  {
    if !Builds(configSkipBuild, skipBuild) then Success(map[])
    else match fx.build
      case Failure(e) => Failure(e)
      case Success(images) =>
        if |images| > 0 && fx.canSave && fx.saveBuilt.Some? then
          Failure(External("Error saving generated config: " + Text(fx.saveBuilt.value)))
        else Success(images)
  }

  /** `builtImages` after `buildImages`: the images of a build that ran and succeeded, otherwise as before. */
  function ImagesAfter(configSkipBuild: bool, skipBuild: bool, fx: Effects, before: map<string, string>): (r: map<string, string>)
    ensures !Builds(configSkipBuild, skipBuild) || Images(configSkipBuild, skipBuild, fx).Failure? ==> r == before
    ensures Builds(configSkipBuild, skipBuild) && Images(configSkipBuild, skipBuild, fx).Success? ==> r == fx.build.value
  {
    var r := Images(configSkipBuild, skipBuild, fx);
    if Builds(configSkipBuild, skipBuild) && r.Success? then r.value else before
  }

  /** A resolved dependency. */
  class Dependency {
    const id: string
    /** The dependency config's `SkipBuild`. */
    const configSkipBuild: bool
    /** The cache of the active generated config, shared with the other dependencies. */
    const cache: Cache
    var builtImages: map<string, string>

    constructor(id: string, configSkipBuild: bool, cache: Cache)
      ensures this.id == id && this.configSkipBuild == configSkipBuild && this.cache == cache
      ensures builtImages == map[]
    {
      this.id := id;
      this.configSkipBuild := configSkipBuild;
      this.cache := cache;
      builtImages := map[];
    }

    /**
     * `prepare`: hashes the directory; unforced with an unchanged hash it returns "";
     * otherwise it records the hash and changes into the dependency's directory.
     */
    method Prepare(force: bool, fx: Effects) returns (cwd: string, err: Option<Error>)
      modifies cache
      ensures (cache.dependencies, cwd, err) == Prepared(old(cache.dependencies), id, force, fx)
    {
      if fx.hash.Failure? {
        return "", Some(Wrapped("hash directory", fx.hash.error));
      }
      var h := fx.hash.value;
      if !force && h == CachedHash(cache.dependencies, id) {
        return "", None;
      }
      cache.dependencies := cache.dependencies[id := h];
      var r := ChangeWorkingDirectory(fx);
      if r.Failure? {
        return "", Some(r.error);
      }
      return r.value, None;
    }

    /**
     * `buildImages`: builds unless skipped, saves the generated config when images were
     * built, and records the images; a skipped build returns no images and records nothing.
     */
    method BuildImages(skipBuild: bool, fx: Effects) returns (r: Result<map<string, string>, Error>)
      modifies this
      ensures r == Images(configSkipBuild, skipBuild, fx)
      ensures builtImages == ImagesAfter(configSkipBuild, skipBuild, fx, old(builtImages))
    {
      if !skipBuild && !configSkipBuild {
        if fx.build.Failure? {
          return Failure(fx.build.error);
        }
        var images := fx.build.value;
        if |images| > 0 && fx.canSave && fx.saveBuilt.Some? {
          return Failure(External("Error saving generated config: " + Text(fx.saveBuilt.value)));
        }
        builtImages := images;
        return Success(images);
      }
      return Success(map[]);
    }

    /** `Build`: prepare, and when the dependency is processed, build its images. */
    method Build(force: bool, fx: Effects) returns (err: Option<Error>)
      modifies this, cache
      ensures var (c, cwd, e) := Prepared(old(cache.dependencies), id, force, fx);
        && cache.dependencies == c
        && if e.Some? then err == e && builtImages == old(builtImages)
           else if cwd == "" then err == None && builtImages == old(builtImages)
           else
             && builtImages == ImagesAfter(configSkipBuild, false, fx, old(builtImages))
             && err == (match Images(configSkipBuild, false, fx) case Failure(e2) => Some(e2) case Success(_) => None)
    {
      var cwd, e := Prepare(force, fx);
      if e.Some? {
        return e;
      }
      if cwd == "" {
        return None;
      }
      var r := BuildImages(false, fx);
      if r.Failure? {
        return Some(r.error);
      }
      return None;
    }

    /**
     * `Deploy`: prepare; when the dependency is processed, create the namespaces, build
     * (unless `skipBuild`), deploy (unless `skipDeploy`) and save the generated config.
     * A failure to create pull secrets is only logged.
     */
    method Deploy(force: bool, skipBuild: bool, skipDeploy: bool, fx: Effects) returns (err: Option<Error>)
      modifies this, cache
      ensures var (c, cwd, e) := Prepared(old(cache.dependencies), id, force, fx);
        && cache.dependencies == c
        && if e.Some? then err == e && builtImages == old(builtImages)
           else if cwd == "" then err == None && builtImages == old(builtImages)
           else if fx.namespaces.Some? then
             err == Some(External("Unable to create namespace: " + Text(fx.namespaces.value)))
             && builtImages == old(builtImages)
           else
             && builtImages == ImagesAfter(configSkipBuild, skipBuild, fx, old(builtImages))
             && err == Deployed(configSkipBuild, skipBuild, skipDeploy, fx)
    {
      var cwd, e := Prepare(force, fx);
      if e.Some? {
        return e;
      }
      if cwd == "" {
        return None;
      }
      if fx.namespaces.Some? {
        return Some(External("Unable to create namespace: " + Text(fx.namespaces.value)));
      }
      var r := BuildImages(skipBuild, fx);
      if r.Failure? {
        return Some(r.error);
      }
      if !skipDeploy && fx.deploy.Some? {
        return fx.deploy;
      }
      if fx.saveDeployed.Some? {
        return Some(External("Error saving generated config: " + Text(fx.saveDeployed.value)));
      }
      return None;
    }

    /** `Render`: change into the directory, build (unless `skipBuild`) and render. */
    method Render(skipBuild: bool, fx: Effects) returns (err: Option<Error>)
      modifies this
      ensures ChangeWorkingDirectory(fx).Failure? ==>
        err == Some(Wrapped("getwd", ChangeWorkingDirectory(fx).error)) && builtImages == old(builtImages)
      ensures ChangeWorkingDirectory(fx).Success? ==>
        && builtImages == ImagesAfter(configSkipBuild, skipBuild, fx, old(builtImages))
        && err == (match Images(configSkipBuild, skipBuild, fx) case Failure(e) => Some(e) case Success(_) => fx.render)
    {
      var r := ChangeWorkingDirectory(fx);
      if r.Failure? {
        return Some(Wrapped("getwd", r.error));
      }
      var images := BuildImages(skipBuild, fx);
      if images.Failure? {
        return Some(images.error);
      }
      return fx.render;
    }

    /**
     * `Purge`: change into the directory, purge (a failed purge or save is only logged)
     * and delete the dependency's cache entry.
     */
    method Purge(fx: Effects) returns (err: Option<Error>)
      modifies cache
      ensures ChangeWorkingDirectory(fx).Failure? ==>
        err == Some(Wrapped("getwd", ChangeWorkingDirectory(fx).error)) && cache.dependencies == old(cache.dependencies)
      ensures ChangeWorkingDirectory(fx).Success? ==>
        err == None && cache.dependencies == old(cache.dependencies) - {id}
    {
      var r := ChangeWorkingDirectory(fx);
      if r.Failure? {
        return Some(Wrapped("getwd", r.error));
      }
      cache.dependencies := cache.dependencies - {id};
      return None;
    }
  }

  /** What `Deploy` returns once the namespaces exist: the build's error, the deploy's, or the save's. */
  function Deployed(configSkipBuild: bool, skipBuild: bool, skipDeploy: bool, fx: Effects): (r: Option<Error>)
    ensures Images(configSkipBuild, skipBuild, fx).Failure? ==> r == Some(Images(configSkipBuild, skipBuild, fx).error)
    ensures r.None? <==>
      Images(configSkipBuild, skipBuild, fx).Success? && (skipDeploy || fx.deploy.None?) && fx.saveDeployed.None?
  {
    match Images(configSkipBuild, skipBuild, fx)
    case Failure(e) => Some(e)
    case Success(_) =>
      if !skipDeploy && fx.deploy.Some? then fx.deploy
      else if fx.saveDeployed.Some? then Some(External("Error saving generated config: " + Text(fx.saveDeployed.value)))
      else None
  }
}
