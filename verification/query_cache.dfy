/**
 * An abstract query cache in the manner of TanStack Query: entries under
 * keys that are sequences of atoms, each with a `stale` flag.
 *
 * Only the two effects the hooks rely on are represented:
 * `invalidateQueries({ queryKey: p })` marks stale every entry whose key
 * starts with `p` (the library's default, non-exact prefix match), and
 * `setQueryData(k, v)` stores `v` under exactly `k` as fresh data.
 */
module QueryCache {

  /** One component of a query key. `Undefined` stands for an omitted optional argument. */
  datatype Atom = Str(s: string) | Num(n: int) | Undefined

  type Key = seq<Atom>

  datatype Entry<V> = Entry(value: V, stale: bool)

  type Cache<V> = map<Key, Entry<V>>

  /** `prefix` matches `key` element by element. */
  predicate IsPrefix(prefix: Key, key: Key) {
    |prefix| <= |key| && key[..|prefix|] == prefix
  }

  /** A one-atom root matches exactly the keys that begin with that atom. */
  lemma RootPrefix(root: Atom, key: Key)
    ensures IsPrefix([root], key) <==> |key| >= 1 && key[0] == root
  {
  }

  /** `invalidateQueries({ queryKey: prefix })`. */
  function Invalidate<V>(c: Cache<V>, prefix: Key): (r: Cache<V>)
    ensures r.Keys == c.Keys
    ensures forall k :: k in c ==> r[k].value == c[k].value
    ensures forall k :: k in c ==> (r[k].stale <==> c[k].stale || IsPrefix(prefix, k))
  {
    map k | k in c :: if IsPrefix(prefix, k) then c[k].(stale := true) else c[k]
  }

  /** `setQueryData(key, v)`. */
  function SetQueryData<V>(c: Cache<V>, key: Key, v: V): (r: Cache<V>)
    ensures r.Keys == c.Keys + {key}
    ensures r[key] == Entry(v, false)
    ensures forall k :: k in c && k != key ==> r[k] == c[k]
  {
    c[key := Entry(v, false)]
  }

  /** Entries whose key does not start with the prefix are untouched. */
  lemma InvalidateOnlyPrefix<V>(c: Cache<V>, prefix: Key, k: Key)
    requires k in c && !IsPrefix(prefix, k)
    ensures Invalidate(c, prefix)[k] == c[k]
  {
  }

  /** Invalidating twice is invalidating once. */
  lemma InvalidateIdempotent<V>(c: Cache<V>, prefix: Key)
    ensures Invalidate(Invalidate(c, prefix), prefix) == Invalidate(c, prefix)
  {
  }

  /** The order of two invalidations does not matter. */
  lemma InvalidateCommutes<V>(c: Cache<V>, p: Key, q: Key)
    ensures Invalidate(Invalidate(c, p), q) == Invalidate(Invalidate(c, q), p)
  {
  }

  /** A longer prefix adds nothing after a shorter one it extends. */
  lemma InvalidateSubsumed<V>(c: Cache<V>, p: Key, q: Key)
    requires IsPrefix(p, q)
    ensures Invalidate(Invalidate(c, p), q) == Invalidate(c, p)
  {
    forall k | k in c && IsPrefix(q, k)
      ensures IsPrefix(p, k)
    {
      assert k[..|p|] == k[..|q|][..|p|];
    }
  }
}
