/**
 * The on-disk rule cache: where the files live (a directory chosen by
 * property, environment or home directory) and how the latest ruleset and
 * its versioned backup are written and read. The filesystem is a map from
 * path to file content; JSON is abstract, so a file holds either a
 * serialised ruleset, the literal `null`, or something unreadable.
 */
module Cache {
  import opened Wrappers
  import opened Model
  import opened Config

  const CacheDirProperty := "sdk.rule.cache.dir"
  const CacheDirVariable := "SDK_RULE_CACHE_DIR"
  const HomeDirSuffix := "/.classification-sdk/"
  const LatestFileName := "rules-cache.json"

  /** `System.getProperty("user.home")`, which string concatenation renders as "null" when absent. */
  function UserHome(env: Env): string {
    match Property(env, "user.home")
    case Some(home) => home
    case None => "null"
  }

  predicate EndsWithSlash(s: string) {
    s != [] && s[|s| - 1] == '/'
  }

  /** One '/' appended unless the directory already ends with one. */
  function WithTrailingSlash(dir: string): (r: string)
    ensures EndsWithSlash(r)
    ensures EndsWithSlash(dir) ==> r == dir
    ensures !EndsWithSlash(dir) ==> r == dir + "/"
  {
    if EndsWithSlash(dir) then dir else dir + "/"
  }

  lemma WithTrailingSlashIdempotent(dir: string)
    ensures WithTrailingSlash(WithTrailingSlash(dir)) == WithTrailingSlash(dir)
  {
  }

  /** `getCacheDir`: property, then environment, then the home directory. */
  function CacheDir(env: Env): (dir: string)
    ensures EndsWithSlash(dir)
    ensures Present(Property(env, CacheDirProperty)) ==>
      dir == WithTrailingSlash(Property(env, CacheDirProperty).value)
    ensures !Present(Property(env, CacheDirProperty)) && Present(Variable(env, CacheDirVariable)) ==>
      dir == WithTrailingSlash(Variable(env, CacheDirVariable).value)
    ensures !Present(Property(env, CacheDirProperty)) && !Present(Variable(env, CacheDirVariable)) ==>
      dir == UserHome(env) + HomeDirSuffix
  {
    var picked := Pick(env, CacheDirProperty, CacheDirVariable);
    var dir := if Present(picked) then picked.value else UserHome(env) + HomeDirSuffix;
    WithTrailingSlash(dir)
  }

  /** `getLatestCacheFile`. */
  function LatestCacheFile(env: Env): string {
    CacheDir(env) + LatestFileName
  }

  /** `getVersionCacheFile`. */
  function VersionCacheFile(env: Env, version: string): string {
    CacheDir(env) + "rules-cache-" + version + ".json"
  }

  /** Both files sit directly in the cache directory. */
  lemma CacheFilesInDirectory(env: Env, version: string)
    ensures LatestCacheFile(env)[..|CacheDir(env)|] == CacheDir(env)
    ensures VersionCacheFile(env, version)[..|CacheDir(env)|] == CacheDir(env)
  {
  }

  /** Distinct versions are backed up to distinct files. */
  lemma VersionFilesDistinct(env: Env, v1: string, v2: string)
    requires v1 != v2
    ensures VersionCacheFile(env, v1) != VersionCacheFile(env, v2)
  {
    VersionInFileName(env, v1);
    VersionInFileName(env, v2);
  }

  /** The version can be read back from its file name. */
  lemma VersionInFileName(env: Env, version: string)
    ensures var start := |CacheDir(env)| + 12;
      |VersionCacheFile(env, version)| == start + |version| + 5 &&
      VersionCacheFile(env, version)[start..start + |version|] == version
  {
  }

  /** A versioned backup never overwrites the latest file, whatever the version string. */
  lemma VersionFileIsNotLatest(env: Env, version: string)
    ensures VersionCacheFile(env, version) != LatestCacheFile(env)
  {
    var n := |CacheDir(env)|;
    assert LatestCacheFile(env)[n + 11] == '.';
    assert VersionCacheFile(env, version)[n + 11] == '-';
  }

  /** The content of one cache file, as far as JSON parsing can tell. */
  datatype Stored = RulesetJson(ruleset: Ruleset) | NullJson | Unreadable

  /** `loadLatest` over a filesystem: absent, null or unreadable files give null. */
  function LoadLatestFrom(env: Env, files: map<string, Stored>): (r: Option<Ruleset>)
    ensures r.Some? <==> LatestCacheFile(env) in files && files[LatestCacheFile(env)].RulesetJson?
    ensures r.Some? ==> files[LatestCacheFile(env)] == RulesetJson(r.value)
  {
    var path := LatestCacheFile(env);
    if path in files && files[path].RulesetJson? then Some(files[path].ruleset) else None
  }

  /**
   * The filesystem after `save(ruleset)`: the versioned file is written
   * first; an IOException on it leaves the latest file untouched, and one on
   * the latest file keeps the backup already written. A write to a path in
   * `unwritable` fails as the file is opened, so it changes nothing.
   * Exceptions never escape.
   */
  function SaveTo(env: Env, unwritable: set<string>, files: map<string, Stored>, ruleset: Ruleset): map<string, Stored> {
    var versionFile := VersionCacheFile(env, ruleset.version);
    var latestFile := LatestCacheFile(env);
    if versionFile in unwritable then files
    else if latestFile in unwritable then files[versionFile := RulesetJson(ruleset)]
    else files[versionFile := RulesetJson(ruleset)][latestFile := RulesetJson(ruleset)]
  }

  /** Saving changes only the two cache files of the ruleset. */
  lemma SaveTouchesOnlyItsFiles(env: Env, unwritable: set<string>, files: map<string, Stored>, ruleset: Ruleset, path: string)
    requires path != VersionCacheFile(env, ruleset.version) && path != LatestCacheFile(env)
    ensures (path in SaveTo(env, unwritable, files, ruleset)) == (path in files)
    ensures path in files ==> SaveTo(env, unwritable, files, ruleset)[path] == files[path]
  {
  }

  /** A save that reaches both files is read back by the next `loadLatest`. */
  lemma SaveThenLoad(env: Env, unwritable: set<string>, files: map<string, Stored>, ruleset: Ruleset)
    requires VersionCacheFile(env, ruleset.version) !in unwritable
    requires LatestCacheFile(env) !in unwritable
    ensures LoadLatestFrom(env, SaveTo(env, unwritable, files, ruleset)) == Some(ruleset)
  {
    VersionFileIsNotLatest(env, ruleset.version);
  }

  /**
   * A write that fails as its file is opened, on either file, leaves what
   * `loadLatest` sees unchanged.
   */
  lemma FailedSaveKeepsLatest(env: Env, unwritable: set<string>, files: map<string, Stored>, ruleset: Ruleset)
    requires VersionCacheFile(env, ruleset.version) in unwritable || LatestCacheFile(env) in unwritable
    ensures LoadLatestFrom(env, SaveTo(env, unwritable, files, ruleset)) == LoadLatestFrom(env, files)
  {
    VersionFileIsNotLatest(env, ruleset.version);
  }

  /**
   * The cache store over a mutable filesystem. `unwritable` names the paths
   * whose writes fail with an IOException when the file is opened.
   */
  class CacheStore {
    const env: Env
    const unwritable: set<string>
    var files: map<string, Stored>

    constructor (env: Env, unwritable: set<string>, files: map<string, Stored>)
      ensures this.env == env && this.unwritable == unwritable && this.files == files
    {
      this.env := env;
      this.unwritable := unwritable;
      this.files := files;
    }

    /** `loadLatest`: never throws. */
    function LoadLatest(): (r: Option<Ruleset>)
      reads this
      ensures r == LoadLatestFrom(env, files)
    {
      LoadLatestFrom(env, files)
    }

    /** `save`: the two ordered writes. */
    method Save(ruleset: Ruleset)
      modifies this
      ensures files == SaveTo(env, unwritable, old(files), ruleset)
    {
      var versionFile := VersionCacheFile(env, ruleset.version);
      if versionFile in unwritable {
        return;
      }
      files := files[versionFile := RulesetJson(ruleset)];
      var latestFile := LatestCacheFile(env);
      if latestFile in unwritable {
        return;
      }
      files := files[latestFile := RulesetJson(ruleset)];
    }
  }
}
