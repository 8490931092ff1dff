/** `inspect_schema` as called: the description of `Schema.Describe`
    memoised per database path by `functools.lru_cache(maxsize=32)`. Opening
    the database and reading its catalogue is a parameter; when it fails the
    error reaches the caller and nothing is cached. */
module Inspector {
  import opened Results
  import opened Schema
  import Lru

  /** `maxsize` of the cache decorator. */
  const CacheSize: nat := 32

  /** Reads the catalogue of the database at a path, or fails. */
  type Opener = string -> Result<seq<CatalogEntry>, string>

  /** The undecorated function: open the database and describe it. */
  function Uncached(open: Opener): (f: string -> Result<string, string>)
    ensures forall path :: f(path).Ok? <==> open(path).Ok?
    ensures forall path :: f(path).Ok? ==> f(path).value != []
  {
    path => match open(path)
            case Ok(catalog) => Ok(Describe(catalog))
            case Err(e) => Err(e)
  }

  /** A cache of the right size whose stored descriptions are non-empty. */
  predicate Ready(cache: Lru.Cache<string, string>) {
    && Lru.Valid(cache)
    && cache.capacity == CacheSize
    && forall i :: 0 <= i < |cache.entries| ==> cache.entries[i].1 != []
  }

  /** One call of `inspect_schema(path)`. A path already in the cache is
      answered from it without opening the database; otherwise the database
      is read and described, and the description is cached. The cache never
      holds more than 32 paths, and every answer is a non-empty text. */
  function InspectSchema(cache: Lru.Cache<string, string>, path: string, open: Opener)
    : (o: Lru.Outcome<string, string, string>)
    requires Ready(cache)
    ensures Ready(o.cache) && |o.cache.entries| <= CacheSize
    ensures Lru.Get(cache, path).Some? ==> o.result == Ok(Lru.Get(cache, path).value)
    ensures Lru.Get(cache, path).None? && open(path).Ok? ==> o.result == Ok(Describe(open(path).value))
    ensures Lru.Get(cache, path).None? && open(path).Err? ==> o.result == Err(open(path).error) && o.cache == cache
    ensures o.result.Ok? ==> o.result.value != []
  {
    var o := Lru.Call(cache, path, Uncached(open));
    CallKeepsReady(cache, path, open);
    o
  }

  /** A call through a ready cache answers with a non-empty text and leaves
      the cache ready. */
  lemma CallKeepsReady(cache: Lru.Cache<string, string>, path: string, open: Opener)
    requires Ready(cache)
    ensures var o := Lru.Call(cache, path, Uncached(open));
            Ready(o.cache) && (o.result.Ok? ==> o.result.value != [])
  {
    var o := Lru.Call(cache, path, Uncached(open));
    AnswerNonEmpty(cache, path, open);
    forall i | 0 <= i < |o.cache.entries| ensures o.cache.entries[i].1 != [] {
      if o.cache.entries[i] !in cache.entries {
        NewEntryIsAnswer(cache, path, open, i);
      } else {
        var j :| 0 <= j < |cache.entries| && cache.entries[j] == o.cache.entries[i];
      }
    }
  }

  /** Every answer is a non-empty text: a stored one or a fresh description. */
  lemma AnswerNonEmpty(cache: Lru.Cache<string, string>, path: string, open: Opener)
    requires Ready(cache)
    ensures var o := Lru.Call(cache, path, Uncached(open));
            o.result.Ok? ==> o.result.value != []
  {
    if Lru.Get(cache, path).Some? {
      var v := Lru.Get(cache, path).value;
      var i :| 0 <= i < |cache.entries| && cache.entries[i] == (path, v);
    }
  }

  /** An entry the call did not find in the cache is the answer it just
      stored. */
  lemma NewEntryIsAnswer(cache: Lru.Cache<string, string>, path: string, open: Opener, i: nat)
    requires Ready(cache)
    requires var o := Lru.Call(cache, path, Uncached(open));
             i < |o.cache.entries| && o.cache.entries[i] !in cache.entries
    ensures var o := Lru.Call(cache, path, Uncached(open));
            o.result.Ok? && o.cache.entries[i] == (path, o.result.value)
  {
    var o := Lru.Call(cache, path, Uncached(open));
    var n := |o.cache.entries|;
    assert o.cache != cache;
    assert Lru.Keys(o.cache.entries)[i] == path;
    assert Lru.Keys(o.cache.entries)[n - 1] == path;
  }

  /** The second of two consecutive calls with the same path returns what
      the first returned, even if the database has changed in between. */
  lemma SecondCallIsMemoised(cache: Lru.Cache<string, string>, path: string, before: Opener, after: Opener)
    requires Ready(cache)
    requires InspectSchema(cache, path, before).result.Ok?
    ensures var first := InspectSchema(cache, path, before);
            InspectSchema(first.cache, path, after).result == first.result
  {
    Lru.RepeatIsHit(cache, path, Uncached(before), Uncached(after));
  }
}
