/**
  The text keys of the caches, the router and the work queue, and why they name the same objects.
 */
module Keys {
  import opened Base
  import opened Cluster
  import Text

  /** The key of an object in a cache and of a route in the router. */
  function ItemKey(n: Name): string {
    n.namespace + "/" + n.name
  }

  /** The key of an object on the work queue. */
  function ResourceKey(kind: string, n: Name): string {
    if |n.namespace| > 0 then kind + "/" + n.namespace + "/" + n.name else kind + "/" + n.name
  }

  /** Cutting at the first separators into at most n pieces. */
  function SplitN(s: string, c: char, n: nat): seq<string>
    requires n > 0
    decreases n
  {
    var i := Text.IndexOf(s, c);
    if n == 1 || i == |s| then [s] else [s[..i]] + SplitN(s[i + 1..], c, n - 1)
  }

  datatype Parts = Parts(kind: string, namespace: string, name: string)

  function SplitResourceKey(key: string): Option<Parts> {
    var parts := SplitN(key, '/', 4);
    match |parts|
    case 2 => Some(Parts(parts[0], "", parts[1]))
    case 3 => Some(Parts(parts[0], parts[1], parts[2]))
    case _ => None
  }

  function SplitKindMetaKey(key: string): Option<(string, string)> {
    var parts := SplitN(key, '/', 2);
    if |parts| == 2 then Some((parts[0], parts[1])) else None
  }

  /** The client library's way back from a cache key to a name. */
  function SplitMetaKey(key: string): Option<Name> {
    var parts := Text.Split(key, '/');
    match |parts|
    case 1 => Some(Name("", parts[0]))
    case 2 => Some(Name(parts[0], parts[1]))
    case _ => None
  }

  predicate SlashFree(n: Name) {
    '/' !in n.namespace && '/' !in n.name
  }

  lemma CutOnce(p: string, rest: string, n: nat)
    requires '/' !in p && n > 0
    ensures n > 1 ==> SplitN(p + "/" + rest, '/', n) == [p] + SplitN(rest, '/', n - 1)
    ensures SplitN(p, '/', n) == [p]
  {
    Text.IndexOfPiece(p, rest, '/');
    var s := p + "/" + rest;
    assert s[..|p|] == p && s[|p| + 1..] == rest;
  }

  /** A queue key gives back the kind, the namespace and the name it was made of, an empty one too. */
  lemma ResourceKeyRoundTrip(kind: string, n: Name)
    requires '/' !in kind && SlashFree(n)
    ensures SplitResourceKey(ResourceKey(kind, n)) == Some(Parts(kind, n.namespace, n.name))
  {
    var key := ResourceKey(kind, n);
    if n.namespace != "" {
      assert key == kind + "/" + ItemKey(n);
      assert SplitN(key, '/', 4) == [kind, n.namespace, n.name] by {
        CutOnce(kind, ItemKey(n), 4);
        CutOnce(n.namespace, n.name, 3);
        CutOnce(n.name, "", 2);
      }
    } else {
      assert SplitN(key, '/', 4) == [kind, n.name] by {
        CutOnce(kind, n.name, 4);
        CutOnce(n.name, "", 3);
      }
    }
  }

  /** What the worker takes for the cache key is the cache key exactly for namespaced objects. */
  lemma MetaPartIsItemKey(kind: string, n: Name)
    requires '/' !in kind
    ensures SplitKindMetaKey(ResourceKey(kind, n)).Some?
    ensures SplitKindMetaKey(ResourceKey(kind, n)).value.0 == kind
    ensures SplitKindMetaKey(ResourceKey(kind, n)).value.1 == (if n.namespace != "" then n.namespace + "/" + n.name else n.name)
    ensures SplitKindMetaKey(ResourceKey(kind, n)).value.1 == ItemKey(n) <==> n.namespace != ""
  {
    if n.namespace != "" {
      assert ResourceKey(kind, n) == kind + "/" + ItemKey(n);
      CutOnce(kind, ItemKey(n), 2);
    } else {
      CutOnce(kind, n.name, 2);
      assert |ItemKey(n)| == |n.name| + 1;
    }
  }

  lemma ItemKeyRoundTrip(n: Name)
    requires SlashFree(n)
    ensures SplitMetaKey(ItemKey(n)) == Some(n)
  {
    Text.SplitPiece(n.namespace, n.name, '/');
    Text.SplitPiece(n.name, "", '/');
  }

  /** Equal keys name equal objects: a key of the queue, of a cache or of the router has one meaning. */
  lemma KeysAreInjective(kind: string, n: Name, kind': string, n': Name)
    requires '/' !in kind && '/' !in kind' && SlashFree(n) && SlashFree(n')
    ensures ItemKey(n) == ItemKey(n') <==> n == n'
    ensures ResourceKey(kind, n) == ResourceKey(kind', n') <==> kind == kind' && n == n'
  {
    ItemKeyRoundTrip(n);
    ItemKeyRoundTrip(n');
    ResourceKeyRoundTrip(kind, n);
    ResourceKeyRoundTrip(kind', n');
  }
}
