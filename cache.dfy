/**
 * The on-disk response cache: one JSON file per key, named by the key's
 * SHA-256 digest, holding `{created_at, complete, payload}`.
 *
 * The directory is a map from file names to contents. A file whose text is
 * not valid JSON is `Unreadable`; a readable file is the object it decodes
 * to, reduced to the three fields the cache consults.
 */
module Cache {
  import opened Text
  import opened Values
  import opened Config
  import Json

  datatype Stored =
    | Body(createdAt: Option<real>, complete: Option<Value>, payload: Option<Value>)
    | Unreadable

  /** A hit: the whole stored body and whether it is older than the TTL. */
  datatype CacheHit = CacheHit(body: Stored, stale: bool)

  type Directory = map<string, Stored>

  /** `<sha256(key)>.json`. */
  function PathForKey(key: string): (name: string)
    ensures |name| >= 5 && name[|name| - 5..] == ".json"
  {
    Json.Sha256Hex(key) + ".json"
  }

  /** Distinct keys use distinct files (the digest is treated as injective). */
  lemma PathForKeyInjective(a: string, b: string)
    requires PathForKey(a) == PathForKey(b)
    ensures a == b
  {
    assert a == PathForKey(a)[..|PathForKey(a)| - 5];
  }

  function QuarantineName(name: string): string {
    name + ".broken"
  }

  /** A corrupt cache file never shares its quarantine name with a live cache file. */
  lemma QuarantineIsNotACacheFile(key: string, other: string)
    ensures QuarantineName(PathForKey(key)) != PathForKey(other)
  {
    var q := QuarantineName(PathForKey(key));
    var p := PathForKey(other);
    assert q[|q| - 1] == 'n' && p[|p| - 1] == 'n';
    assert q[|q| - 2] == 'e' && p[|p| - 2] == 'o';
  }

  function CreatedAt(body: Stored): real
    requires body.Body?
  {
    if body.createdAt.Some? then body.createdAt.value else 0.0
  }

  predicate IsComplete(body: Stored)
    requires body.Body?
  {
    body.complete.Some? && Truthy(body.complete.value)
  }

  /** Older than the TTL, strictly. */
  predicate IsStale(body: Stored, ttlSeconds: int, now: real)
    requires body.Body?
  {
    now - CreatedAt(body) > ttlSeconds as real
  }

  /** The answer of a lookup, and the directory afterwards (a corrupt file is moved aside). */
  function Lookup(cacheDir: Option<string>, ttlSeconds: int, files: Directory, key: string, mode: CacheMode,
                  allowIncomplete: bool, now: real): (r: (Option<CacheHit>, Directory))
    ensures cacheDir.None? || !mode.IfStale? ==> r == (None, files)
    ensures PathForKey(key) !in files ==> r == (None, files)
    ensures cacheDir.Some? && mode == IfStale && PathForKey(key) in files && files[PathForKey(key)].Unreadable? ==>
      r.0.None? && PathForKey(key) !in r.1 && QuarantineName(PathForKey(key)) in r.1
      && r.1[QuarantineName(PathForKey(key))] == Unreadable
      && r.1.Keys == files.Keys - {PathForKey(key)} + {QuarantineName(PathForKey(key))}
      && forall n :: n in files && n != PathForKey(key) && n != QuarantineName(PathForKey(key)) ==> n in r.1 && r.1[n] == files[n]
    ensures r.0.Some? <==>
      cacheDir.Some? && mode == IfStale && PathForKey(key) in files && files[PathForKey(key)].Body?
      && (allowIncomplete || IsComplete(files[PathForKey(key)]))
    ensures r.0.Some? ==>
      r.1 == files && r.0.value.body == files[PathForKey(key)]
      && r.0.value.stale == IsStale(files[PathForKey(key)], ttlSeconds, now)
  {
    if cacheDir.None? || mode.Off? then (None, files)
    else if mode.ForceRefresh? then (None, files)
    else
      var path := PathForKey(key);
      if path !in files then (None, files)
      else match files[path]
        case Unreadable => (None, (files - {path})[QuarantineName(path) := Unreadable])
        case Body(_, _, _) =>
          var body := files[path];
          if !allowIncomplete && !IsComplete(body) then (None, files)
          else (Some(CacheHit(body, IsStale(body, ttlSeconds, now))), files)
  }

  class FileCache {
    const cacheDir: Option<string>
    const ttlSeconds: int
    var files: Directory

    /** Opens the cache over a directory's current contents. */
    constructor (cacheDir: Option<string>, ttlSeconds: int, existing: Directory)
      ensures this.cacheDir == cacheDir && this.ttlSeconds == ttlSeconds && files == existing
    {
      this.cacheDir := cacheDir;
      this.ttlSeconds := ttlSeconds;
      files := existing;
    }

    /** Reads the entry for `key` at wall-clock time `now`. */
    method Get(key: string, mode: CacheMode, allowIncomplete: bool, now: real) returns (hit: Option<CacheHit>)
      modifies this
      ensures (hit, files) == Lookup(cacheDir, ttlSeconds, old(files), key, mode, allowIncomplete, now)
    {
      if cacheDir.None? || mode == Off {
        return None;
      }
      if mode == ForceRefresh {
        return None;
      }
      var path := PathForKey(key);
      if path !in files {
        return None;
      }
      var body := files[path];
      if body.Unreadable? {
        files := (files - {path})[QuarantineName(path) := Unreadable];
        return None;
      }
      if !allowIncomplete && !IsComplete(body) {
        return None;
      }
      var stale := IsStale(body, ttlSeconds, now);
      return Some(CacheHit(body, stale));
    }

    /**
     * Writes `payload` at wall-clock time `now`: the body goes to a fresh
     * temporary file `tmpName`, which then replaces the cache file. When the
     * write fails (`writeFails`), the temporary file is removed and the
     * failure is reported (`ok` false).
     */
    method Put(key: string, payload: Value, complete: bool, now: real, tmpName: string, writeFails: bool)
      returns (ok: bool)
      requires tmpName !in files && tmpName != PathForKey(key)
      modifies this
      ensures cacheDir.None? ==> ok && files == old(files)
      ensures cacheDir.Some? ==>
        ok == !writeFails
        && files == if ok then old(files)[PathForKey(key) := Written(payload, complete, now)] else old(files)
      ensures tmpName !in files
    {
      if cacheDir.None? {
        return true;
      }
      var path := PathForKey(key);
      var body := Written(payload, complete, now);
      files := files[tmpName := Body(None, None, None)];
      if writeFails {
        ok := false;
      } else {
        files := files[tmpName := body];
        files := (files - {tmpName})[path := body];
        ok := true;
      }
      if tmpName in files {
        files := files - {tmpName};
      }
    }
  }

  /** The body `put` writes. */
  function Written(payload: Value, complete: bool, now: real): (body: Stored)
    ensures body.Body? && CreatedAt(body) == now && body.payload == Some(payload)
    ensures IsComplete(body) == complete
  {
    Body(Some(now), Some(VBool(complete)), Some(payload))
  }

  /**
   * A complete entry written at `written` is returned by an IF_STALE lookup
   * at `now`, not stale while at most the TTL has passed.
   */
  lemma PutThenGet(cacheDir: Option<string>, ttlSeconds: int, files: Directory, key: string, payload: Value,
                   written: real, now: real)
    requires cacheDir.Some?
    ensures var after := files[PathForKey(key) := Written(payload, true, written)];
      var r := Lookup(cacheDir, ttlSeconds, after, key, IfStale, false, now);
      && r.0.Some? && r.0.value.body.payload == Some(payload) && r.1 == after
      && (r.0.value.stale <==> now - written > ttlSeconds as real)
  {
  }

  /** An incomplete entry is a miss unless incomplete entries are allowed. */
  lemma IncompleteIsMiss(cacheDir: Option<string>, ttlSeconds: int, files: Directory, key: string, payload: Value,
                         written: real, now: real)
    ensures var after := files[PathForKey(key) := Written(payload, false, written)];
      && Lookup(cacheDir, ttlSeconds, after, key, IfStale, false, now) == (None, after)
      && (cacheDir.Some? ==> Lookup(cacheDir, ttlSeconds, after, key, IfStale, true, now).0.Some?)
  {
  }
}
