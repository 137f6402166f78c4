/** The global helpers the CMS core relies on: the per-request post-meta
    cache behind get_post_meta and its invalidation by the meta writers,
    and admin_url, which builds dashboard links. */
module Helpers {
  import opened Values
  import opened PhpStrings
  import opened OrderedMaps

  /** What get_post_meta answers: the whole key-to-values array of the
      post, one value, or a list of values. */
  datatype MetaResult = AllMeta(meta: Dict<seq<Value>>) | Single(value: Value) | Many(values: seq<Value>)

  /** A post's meta rows, `(meta_key, meta_value)` in the order the
      database returns them, grouped as the cache keeps them: each key with
      the list of its values in row order. */
  function GroupRows(rows: Dict<Value>): Dict<seq<Value>> {
    GroupByKeys(ValuesOf(rows), Keys(rows))
  }

  /** The values of the rows with key `key`, in row order. */
  function ValuesFor(rows: Dict<Value>, key: string): seq<Value> {
    Bucket(ValuesOf(rows), Keys(rows), key)
  }

  /** get_post_meta's answer from a post's cached meta: everything for the
      empty key; for a missing key null or the empty list; otherwise the
      first value or all of them. */
  function Lookup(meta: Dict<seq<Value>>, key: string, single: bool): MetaResult {
    if key == "" then AllMeta(meta)
    else
      match Get(meta, key)
      case None => if single then Single(Null) else Many([])
      case Some(values) => if single then Single(if values != [] then values[0] else Null) else Many(values)
  }

  /** Looked up in freshly loaded meta, a key gives the values of exactly
      the rows with that key, in row order (the first of them when
      `single`), and null or the empty list when no row has it. */
  lemma LookupLoaded(rows: Dict<Value>, key: string, single: bool)
    requires key != ""
    ensures key !in Keys(rows) ==> Lookup(GroupRows(rows), key, single) == if single then Single(Null) else Many([])
    ensures key in Keys(rows) ==> ValuesFor(rows, key) != []
    ensures key in Keys(rows) ==> (Lookup(GroupRows(rows), key, single) ==
      if single then Single(ValuesFor(rows, key)[0]) else Many(ValuesFor(rows, key)))
  {
    GroupByKeysSpec(ValuesOf(rows), Keys(rows), key);
  }

  /** The values gathered for a key are those of its rows and no others. */
  lemma {:induction false} ValuesForSpec(rows: Dict<Value>, key: string)
    ensures forall v :: v in ValuesFor(rows, key) <==> exists i :: 0 <= i < |rows| && rows[i] == (key, v)
    decreases |rows|
  {
    if rows != [] {
      var n := |rows| - 1;
      var init := rows[..n];
      ValuesForSpec(init, key);
      assert Keys(rows)[..n] == Keys(init) && ValuesOf(rows)[..n] == ValuesOf(init);
      assert ValuesFor(rows, key) == ValuesFor(init, key) + (if rows[n].0 == key then [rows[n].1] else []);
      forall v | exists i :: 0 <= i < |rows| && rows[i] == (key, v)
        ensures v in ValuesFor(rows, key)
      {
        var i :| 0 <= i < |rows| && rows[i] == (key, v);
        if i < n {
          assert init[i] == rows[i];
        }
      }
      forall v | v in ValuesFor(rows, key)
        ensures exists i :: 0 <= i < |rows| && rows[i] == (key, v)
      {
        if v in ValuesFor(init, key) {
          var i :| 0 <= i < n && init[i] == (key, v);
          assert rows[i] == init[i];
        } else {
          assert rows[n] == (key, v);
        }
      }
    }
  }

  /** The cache after get_post_meta for `postId`: the post's meta is
      loaded from its rows only when the post has no entry yet. */
  function Loaded(cache: map<int, Dict<seq<Value>>>, postId: int, rows: Dict<Value>): (r: map<int, Dict<seq<Value>>>)
    ensures postId in r && r.Keys == cache.Keys + {postId}
    ensures forall p :: p in cache ==> r[p] == cache[p]
    ensures postId !in cache ==> r[postId] == GroupRows(rows)
  {
    if postId in cache then cache else cache[postId := GroupRows(rows)]
  }

  /** Once a post is cached, later reads are served from the cache,
      whatever the database holds by then. */
  lemma CachedReadsIgnoreDatabase(cache: map<int, Dict<seq<Value>>>, postId: int,
                                  rows: Dict<Value>, later: Dict<Value>, key: string, single: bool)
    ensures Loaded(Loaded(cache, postId, rows), postId, later) == Loaded(cache, postId, rows)
    ensures Lookup(Loaded(Loaded(cache, postId, rows), postId, later)[postId], key, single) ==
            Lookup(Loaded(cache, postId, rows)[postId], key, single)
  {
    var c := Loaded(cache, postId, rows);
    assert postId in c;
  }

  /** The cache after a post's entry is dropped. */
  function Invalidated(cache: map<int, Dict<seq<Value>>>, postId: int): (r: map<int, Dict<seq<Value>>>)
    ensures postId !in r && r.Keys == cache.Keys - {postId}
    ensures forall p :: p in r ==> r[p] == cache[p]
  {
    cache - {postId}
  }

  /** After invalidation the next read of that post reloads it from the
      database, and the other posts are still served from the cache. */
  lemma ReadAfterInvalidation(cache: map<int, Dict<seq<Value>>>, postId: int, other: int, rows: Dict<Value>)
    requires other != postId && other in cache
    ensures Loaded(Invalidated(cache, postId), postId, rows)[postId] == GroupRows(rows)
    ensures Loaded(Invalidated(cache, postId), other, rows)[other] == cache[other]
  {
  }

  /** `global $post_meta_cache`: post id to that post's grouped meta. */
  class PostMetaCache {
    var cache: map<int, Dict<seq<Value>>>

    constructor ()
      ensures cache == map[]
    {
      cache := map[];
    }

    /** The loading loop of get_post_meta: each row's value is appended to
        the list of its key. */
    static method LoadRows(rows: Dict<Value>) returns (meta: Dict<seq<Value>>)
      ensures meta == GroupRows(rows)
    {
      meta := [];
      ghost var xs, keys := ValuesOf(rows), Keys(rows);
      var i := 0;
      while i < |rows|
        invariant 0 <= i <= |rows|
        invariant meta == GroupByKeys(xs[..i], keys[..i])
      {
        assert xs[..i + 1][..i] == xs[..i] && keys[..i + 1][..i] == keys[..i];
        meta := Append(meta, rows[i].0, rows[i].1);
        i := i + 1;
      }
      assert xs[..i] == xs && keys[..i] == keys;
    }

    /** get_post_meta($postId, $key = '', $single = false), with `fetch`
        standing for the database query of a post's meta rows. */
    method GetPostMeta(postId: int, fetch: int -> Dict<Value>, key: string := "", single: bool := false) returns (r: MetaResult)
      modifies this`cache
      ensures cache == Loaded(old(cache), postId, fetch(postId))
      ensures r == Lookup(cache[postId], key, single)
    {
      if postId !in cache {
        var meta := LoadRows(fetch(postId));
        cache := cache[postId := meta];
      }
      r := Lookup(cache[postId], key, single);
    }

    /** clear_post_meta_cache($postId): one post's entry, or all of them
        for null. */
    method ClearPostMetaCache(postId: Option<int> := None)
      modifies this`cache
      ensures cache == if postId.Some? then Invalidated(old(cache), postId.value) else map[]
    {
      if postId.Some? {
        cache := cache - {postId.value};
      } else {
        cache := map[];
      }
    }

    /** update_post_meta: `found` tells whether a row with that key (and
        previous value, when one is given) exists and `saved` what saving
        it returned; without such a row the value is added, and
        `createdId` is the id the insert got. */
    method UpdatePostMeta(postId: int, found: bool, saved: bool, createdId: Option<int>) returns (r: Value)
      modifies this`cache
      ensures found ==> r == Bool(saved)
      ensures found ==> (cache == if saved then Invalidated(old(cache), postId) else old(cache))
      ensures !found ==> r == CreatedResult(createdId)
      ensures !found ==> (cache == if Created(createdId) then Invalidated(old(cache), postId) else old(cache))
    {
      if found {
        if saved {
          ClearPostMetaCache(Some(postId));
        }
        r := Bool(saved);
      } else {
        r := AddPostMeta(postId, false, createdId);
      }
    }

    /** add_post_meta: refused when `unique` is asked and the key already
        exists; otherwise the row is inserted, and an insert that got an id
        invalidates the post. */
    method AddPostMeta(postId: int, exists_: bool, createdId: Option<int>, unique: bool := false) returns (r: Value)
      modifies this`cache
      ensures unique && exists_ ==> r == Bool(false) && cache == old(cache)
      ensures !(unique && exists_) ==> r == CreatedResult(createdId)
      ensures !(unique && exists_) ==> (cache == if Created(createdId) then Invalidated(old(cache), postId) else old(cache))
    {
      if unique && exists_ {
        return Bool(false);
      }
      if Created(createdId) {
        ClearPostMetaCache(Some(postId));
      }
      r := CreatedResult(createdId);
    }

    /** delete_post_meta: `deleted` is what the delete query returned; a
        delete that removed something invalidates the post. */
    method DeletePostMeta(postId: int, deleted: bool) returns (r: bool)
      modifies this`cache
      ensures r == deleted
      ensures cache == if deleted then Invalidated(old(cache), postId) else old(cache)
    {
      if deleted {
        ClearPostMetaCache(Some(postId));
      }
      r := deleted;
    }
  }

  /** `$meta->id && ...`: the insert got a truthy id. */
  predicate Created(createdId: Option<int>) {
    createdId.Some? && createdId.value != 0
  }

  /** `$meta->id ?? false` */
  function CreatedResult(createdId: Option<int>): (r: Value)
    ensures createdId.None? <==> r == Bool(false)
    ensures createdId.Some? ==> r == Int(createdId.value)
  {
    if createdId.Some? then Int(createdId.value) else Bool(false)
  }

  const Slash: set<char> := {'/'}

  /** The url before the query string: the dashboard url, then `/` and the
      path with its slashes trimmed when the path is truthy. */
  function AdminBase(dashboard: string, path: string): string {
    if Truthy(Str(path)) then dashboard + "/" + Trim(path, Slash) else dashboard
  }

  /** admin_url($path, $params): `dashboard` is the `cms.dashboard` route
      url and `buildQuery` stands for http_build_query. The result never
      ends with `/`. */
  function AdminUrl(dashboard: string, buildQuery: Dict<Value> -> string, path: string := "", params: Dict<Value> := []): (r: string)
    ensures r == [] || r[|r| - 1] != '/'
  {
    var url := AdminBase(dashboard, path);
    var full := if params != [] then url + (if '?' in url then "&" else "?") + buildQuery(params) else url;
    TrimRight(full, Slash)
  }

  /** Appending one `/` before trimming trailing slashes changes nothing. */
  lemma TrimRightSlash(s: string)
    ensures TrimRight(s + "/", Slash) == TrimRight(s, Slash)
  {
    assert (s + "/")[..|s|] == s;
  }

  /** Without parameters, a truthy path lands after exactly one `/`,
      however many slashes surround it. */
  lemma AdminUrlPath(dashboard: string, path: string, buildQuery: Dict<Value> -> string)
    requires Truthy(Str(path)) && Trim(path, Slash) != []
    ensures AdminUrl(dashboard, buildQuery, path) == dashboard + "/" + Trim(path, Slash)
  {
    var t := Trim(path, Slash);
    TrimSpec(path, Slash);
    var s := dashboard + "/" + t;
    assert AdminBase(dashboard, path) == s;
    assert s[|s| - 1] == t[|t| - 1];
    TrimRightOfTrimmed(s, Slash);
  }

  /** A path of slashes only leaves the dashboard url without its trailing
      slashes. */
  lemma AdminUrlSlashesOnly(dashboard: string, path: string, buildQuery: Dict<Value> -> string)
    requires Truthy(Str(path)) && Trim(path, Slash) == []
    ensures AdminUrl(dashboard, buildQuery, path) == TrimRight(dashboard, Slash)
  {
    assert AdminBase(dashboard, path) == dashboard + "/";
    TrimRightSlash(dashboard);
  }

  /** A falsy path ("" or "0") adds nothing to the url. */
  lemma AdminUrlFalsyPath(dashboard: string, path: string, buildQuery: Dict<Value> -> string)
    requires path == "" || path == "0"
    ensures AdminUrl(dashboard, buildQuery, path) == TrimRight(dashboard, Slash)
  {
    assert !Truthy(Str(path));
    assert AdminBase(dashboard, path) == dashboard;
  }

  /** With parameters whose query string does not end in `/`, the query
      follows the path part after `&` when that already holds a `?`, and
      after `?` otherwise. */
  lemma AdminUrlQuery(dashboard: string, path: string, params: Dict<Value>, buildQuery: Dict<Value> -> string)
    requires params != []
    requires buildQuery(params) != [] && buildQuery(params)[|buildQuery(params)| - 1] != '/'
    ensures '?' in AdminBase(dashboard, path) ==>
      AdminUrl(dashboard, buildQuery, path, params) == AdminBase(dashboard, path) + "&" + buildQuery(params)
    ensures '?' !in AdminBase(dashboard, path) ==>
      AdminUrl(dashboard, buildQuery, path, params) == AdminBase(dashboard, path) + "?" + buildQuery(params)
  {
    var q := buildQuery(params);
    var u := AdminBase(dashboard, path);
    var s := u + (if '?' in u then "&" else "?") + q;
    assert s[|s| - 1] == q[|q| - 1];
    TrimRightOfTrimmed(s, Slash);
  }
}
