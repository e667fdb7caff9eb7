/**
 Listing memories to a depth (app/routers/generic_resources.py,
 _memory_list_items_with_depth): memories no deeper than `depth` below the
 prefix are listed, deeper ones are rolled up into a directory.
 */
module DepthRollup {
  import opened Strings
  import LikePattern

  datatype Item = MemoryItem(key: string) | PrefixItem

  // A memory key: parts without slashes, none of them empty (MemoryPaths.KeyOfNormalPath).
  predicate IsKey(key: string) {
    forall part | part in Split(key, '/') :: part != ""
  }

  function Parts(key: string): seq<string> {
    if key == "" then [] else Split(key, '/')
  }

  predicate InScope(prefixKey: string, key: string) {
    prefixKey == "" || key == prefixKey || prefixKey + "/" <= key
  }

  function MemoryPath(key: string): string {
    "/" + key
  }

  function PrefixPath(parts: seq<string>): string {
    if parts == [] then "/" else "/" + Join(parts, '/') + "/"
  }

  predicate IsShallow(prefixKey: string, depth: nat, key: string) {
    |Parts(key)| <= |Parts(prefixKey)| + depth
  }

  // The path under which a memory of the listing appears.
  function ListedUnder(prefixKey: string, depth: nat, key: string): string {
    if IsShallow(prefixKey, depth, key) then MemoryPath(key)
    else PrefixPath(Parts(key)[..|Parts(prefixKey)| + depth])
  }

  function ItemFor(prefixKey: string, depth: nat, key: string): Item {
    if IsShallow(prefixKey, depth, key) then MemoryItem(key) else PrefixItem
  }

  function ListOne(items: map<string, Item>, prefixKey: string, depth: nat, key: string): map<string, Item> {
    if key == "" || !InScope(prefixKey, key) then items
    else
      var path := ListedUnder(prefixKey, depth, key);
      if IsShallow(prefixKey, depth, key) then items[path := MemoryItem(key)]
      else if path in items then items
      else items[path := PrefixItem]
  }

  function Listing(keys: seq<string>, prefixKey: string, depth: nat): map<string, Item> {
    if keys == [] then map[]
    else ListOne(Listing(keys[..|keys| - 1], prefixKey, depth), prefixKey, depth, keys[|keys| - 1])
  }

  // The code measures a memory's depth by the parts below the prefix; in scope
  // those are the parts of the key beyond those of the prefix.
  lemma PartsInScope(prefixKey: string, key: string)
    requires key != "" && InScope(prefixKey, key)
    ensures Parts(prefixKey) <= Parts(key)
  {
    StartsWithParts(key, prefixKey, '/');
  }

  // The loop over the memories of a store.
  method ListItems(keys: seq<string>, prefixKey: string, depth: nat) returns (items: map<string, Item>)
    ensures items == Listing(keys, prefixKey, depth)
  {
    hide Split, Join, InScope, PrefixPath;
    var baseLength := |Parts(prefixKey)|;
    items := map[];
    for i := 0 to |keys|
      invariant items == Listing(keys[..i], prefixKey, depth)
    {
      assert keys[..i + 1][..i] == keys[..i];
      var key := keys[i];
      if key != "" && InScope(prefixKey, key) {
        PartsInScope(prefixKey, key);
        var parts := Split(key, '/');
        var relative := if key == prefixKey then [] else parts[baseLength..];
        if |relative| <= depth {
          items := items["/" + key := MemoryItem(key)];
        } else {
          var path := PrefixPath(parts[..baseLength + depth]);
          if path !in items {
            items := items[path := PrefixItem];
          }
        }
      }
    }
    assert keys[..|keys|] == keys;
  }

  // Directly on the query side: the names a prefix query returns are those in scope.
  lemma QueryFindsScope(prefixKey: string, key: string)
    requires prefixKey != ""
    ensures key == prefixKey || LikePattern.Like(key, LikePattern.EscapeLike(prefixKey) + "/%")
       <==> InScope(prefixKey, key)
  {
    LikePattern.PrefixQueryIsPrefixTest(key, prefixKey);
  }

  // --------------------------------------------------------------- paths apart

  lemma PrefixPathSplits(parts: seq<string>)
    requires forall part | part in parts :: '/' !in part
    ensures Split(PrefixPath(parts), '/') == [""] + parts + [""]
    ensures PrefixPath(parts) != ""
  {
    if parts == [] {
      assert "/"[1..] == "";
    } else {
      var joined := Join(parts, '/');
      assert PrefixPath(parts) == "" + ['/'] + (joined + ['/'] + "");
      SplitOfConcat("", joined + ['/'] + "", '/');
      SplitOfConcat(joined, "", '/');
      SplitOfJoin(parts, '/');
    }
  }

  lemma MemoryPathSplits(key: string)
    ensures Split(MemoryPath(key), '/') == [""] + Split(key, '/')
  {
    assert MemoryPath(key)[1..] == key;
  }

  lemma KeyParts(key: string, n: nat)
    requires IsKey(key) && n <= |Parts(key)|
    ensures forall part | part in Parts(key)[..n] :: part != "" && '/' !in part
  {
    SplitParts(key, '/');
    assert forall part | part in Parts(key)[..n] :: part in Parts(key);
  }

  lemma KeyEnd(key: string)
    requires IsKey(key)
    ensures key != "" && key[|key| - 1] != '/'
  {
    var parts := Split(key, '/');
    assert parts[|parts| - 1] in parts;
    SplitParts(key, '/');
    JoinOfSplit(key, '/');
    JoinEnd(parts, '/');
  }

  // A memory's path never equals a directory's: it does not end with a slash.
  lemma PathsNeverCollide(key: string, parts: seq<string>)
    requires IsKey(key)
    ensures MemoryPath(key) != PrefixPath(parts)
  {
    KeyEnd(key);
    assert MemoryPath(key)[|key|] != '/';
    assert PrefixPath(parts)[|PrefixPath(parts)| - 1] == '/';
  }

  lemma PrefixPathIsInjective(a: seq<string>, b: seq<string>)
    requires forall part | part in a :: '/' !in part
    requires forall part | part in b :: '/' !in part
    requires PrefixPath(a) == PrefixPath(b)
    ensures a == b
  {
    PrefixPathSplits(a);
    PrefixPathSplits(b);
    assert a == ([""] + a + [""])[1..|a| + 1];
    assert b == ([""] + b + [""])[1..|b| + 1];
  }

  // A directory's path starts the path of exactly the memories below it.
  lemma StartsWithPrefixPath(key: string, parts: seq<string>)
    requires IsKey(key) && forall part | part in parts :: '/' !in part
    ensures PrefixPath(parts) <= MemoryPath(key) <==> parts < Parts(key)
  {
    KeyEnd(key);
    if parts != [] {
      var joined := Join(parts, '/');
      SplitOfJoin(parts, '/');
      StartsWithParts(key, joined, '/');
      StartsWithShifted("/", joined + ['/'], key);
      assert PrefixPath(parts) == "/" + (joined + ['/']);
    }
  }

  lemma StartsWithShifted(head: string, a: string, b: string)
    ensures head + a <= head + b <==> a <= b
  {
    assert (head + a)[|head|..] == a && (head + b)[|head|..] == b;
    if a <= b {
      assert head + b == (head + a) + b[|a|..];
    }
    if head + a <= head + b {
      assert (head + b)[..|head + a|][|head|..] == a;
      assert b[..|a|] == a;
    }
  }

  // ------------------------------------------------------------- what is listed

  // Two memories listed under one path are both rolled up, or the same.
  lemma ListedPathsAgree(prefixKey: string, depth: nat, a: string, b: string)
    requires IsKey(a) && InScope(prefixKey, a)
    requires IsKey(b) && InScope(prefixKey, b)
    requires ListedUnder(prefixKey, depth, a) == ListedUnder(prefixKey, depth, b)
    ensures ItemFor(prefixKey, depth, a) == ItemFor(prefixKey, depth, b)
    ensures !IsShallow(prefixKey, depth, a) ==>
              Parts(a)[..|Parts(prefixKey)| + depth] == Parts(b)[..|Parts(prefixKey)| + depth]
  {
    var n := |Parts(prefixKey)| + depth;
    if IsShallow(prefixKey, depth, a) {
      if !IsShallow(prefixKey, depth, b) {
        PathsNeverCollide(a, Parts(b)[..n]);
        assert false;
      }
      assert MemoryPath(a)[1..] == a && MemoryPath(b)[1..] == b;
    } else {
      KeyParts(a, n);
      if IsShallow(prefixKey, depth, b) {
        PathsNeverCollide(b, Parts(a)[..n]);
        assert false;
      }
      KeyParts(b, n);
      PrefixPathIsInjective(Parts(a)[..n], Parts(b)[..n]);
    }
  }

  ghost predicate InListing(keys: seq<string>, prefixKey: string, key: string) {
    key in keys && InScope(prefixKey, key)
  }

  // The items are those of the memories in scope, under their paths.
  ghost predicate Holds(items: map<string, Item>, keys: seq<string>, prefixKey: string, depth: nat) {
    && (forall path | path in items ::
          exists key | key in keys :: InListing(keys, prefixKey, key) && path == ListedUnder(prefixKey, depth, key))
    && (forall key | InListing(keys, prefixKey, key) ::
          && ListedUnder(prefixKey, depth, key) in items
          && items[ListedUnder(prefixKey, depth, key)] == ItemFor(prefixKey, depth, key))
  }

  // Whether its path is new or not, a memory in scope puts its item there.
  lemma ListOneSetsItem(items: map<string, Item>, keys: seq<string>, prefixKey: string, depth: nat, last: string)
    requires Holds(items, keys, prefixKey, depth)
    requires last != "" && IsKey(last) && InScope(prefixKey, last) && forall key | key in keys :: IsKey(key)
    ensures ListOne(items, prefixKey, depth, last)
         == items[ListedUnder(prefixKey, depth, last) := ItemFor(prefixKey, depth, last)]
  {
    hide InScope, IsKey, Parts, MemoryPath, PrefixPath;
    var path := ListedUnder(prefixKey, depth, last);
    if path in items {
      var key :| key in keys && InListing(keys, prefixKey, key) && path == ListedUnder(prefixKey, depth, key);
      ListedPathsAgree(prefixKey, depth, key, last);
      assert items[path] == ItemFor(prefixKey, depth, last);
    }
  }

  lemma ListOneHolds(items: map<string, Item>, keys: seq<string>, prefixKey: string, depth: nat, last: string)
    requires Holds(items, keys, prefixKey, depth)
    requires last != "" && IsKey(last) && forall key | key in keys :: IsKey(key)
    ensures Holds(ListOne(items, prefixKey, depth, last), keys + [last], prefixKey, depth)
  {
    hide ListedUnder, InScope, IsKey, ItemFor, IsShallow;
    assert forall key :: InListing(keys + [last], prefixKey, key) <==>
      InListing(keys, prefixKey, key) || (key == last && InScope(prefixKey, last));
    if InScope(prefixKey, last) {
      ListOneSetsItem(items, keys, prefixKey, depth, last);
      forall key | InListing(keys, prefixKey, key) && ListedUnder(prefixKey, depth, key) == ListedUnder(prefixKey, depth, last)
        ensures ItemFor(prefixKey, depth, key) == ItemFor(prefixKey, depth, last)
      {
        ListedPathsAgree(prefixKey, depth, key, last);
      }
      hide ListOne;
      assert InListing(keys + [last], prefixKey, last);
    }
  }

  // The listing holds exactly the items its memories ask for.
  lemma {:induction false} ListingHolds(keys: seq<string>, prefixKey: string, depth: nat)
    requires forall key | key in keys :: IsKey(key)
    ensures Holds(Listing(keys, prefixKey, depth), keys, prefixKey, depth)
  {
    if keys != [] {
      var before, last := keys[..|keys| - 1], keys[|keys| - 1];
      assert keys == before + [last];
      ListingHolds(before, prefixKey, depth);
      KeyEnd(last);
      ListOneHolds(Listing(before, prefixKey, depth), before, prefixKey, depth, last);
    }
  }

  lemma ListedHasKey(keys: seq<string>, prefixKey: string, depth: nat, path: string) returns (key: string)
    requires forall k | k in keys :: IsKey(k)
    requires path in Listing(keys, prefixKey, depth)
    ensures key in keys && IsKey(key) && InScope(prefixKey, key)
    ensures path == ListedUnder(prefixKey, depth, key)
  {
    hide IsKey, InScope, ListedUnder, ItemFor, Listing;
    ListingHolds(keys, prefixKey, depth);
    key :| key in keys && InListing(keys, prefixKey, key) && path == ListedUnder(prefixKey, depth, key);
  }

  lemma KeyIsListed(keys: seq<string>, prefixKey: string, depth: nat, key: string)
    requires forall k | k in keys :: IsKey(k)
    requires key in keys && InScope(prefixKey, key)
    ensures ListedUnder(prefixKey, depth, key) in Listing(keys, prefixKey, depth)
    ensures Listing(keys, prefixKey, depth)[ListedUnder(prefixKey, depth, key)] == ItemFor(prefixKey, depth, key)
  {
    hide IsKey, InScope, ListedUnder, ItemFor, Listing;
    ListingHolds(keys, prefixKey, depth);
    assert InListing(keys, prefixKey, key);
  }

  // An item covers a memory when it is the memory, or a directory above it.
  predicate Covers(path: string, item: Item, key: string) {
    if item.MemoryItem? then item.key == key else path <= MemoryPath(key)
  }

  // The listing is a partition: each memory in scope is covered by exactly one item.
  lemma EachMemoryIsCoveredOnce(keys: seq<string>, prefixKey: string, depth: nat, key: string)
    requires forall k | k in keys :: IsKey(k)
    requires key in keys && InScope(prefixKey, key)
    ensures ListedUnder(prefixKey, depth, key) in Listing(keys, prefixKey, depth)
    ensures var items := Listing(keys, prefixKey, depth);
      forall path | path in items ::
        Covers(path, items[path], key) <==> path == ListedUnder(prefixKey, depth, key)
  {
    var items := Listing(keys, prefixKey, depth);
    KeyIsListed(keys, prefixKey, depth, key);
    forall path | path in items
      ensures Covers(path, items[path], key) <==> path == ListedUnder(prefixKey, depth, key)
    {
      var other := ListedHasKey(keys, prefixKey, depth, path);
      KeyIsListed(keys, prefixKey, depth, other);
      CoversIff(prefixKey, depth, other, key);
    }
  }

  lemma CoversIff(prefixKey: string, depth: nat, other: string, key: string)
    requires IsKey(other) && InScope(prefixKey, other)
    requires IsKey(key) && InScope(prefixKey, key)
    ensures Covers(ListedUnder(prefixKey, depth, other), ItemFor(prefixKey, depth, other), key)
       <==> ListedUnder(prefixKey, depth, other) == ListedUnder(prefixKey, depth, key)
  {
    hide InScope, IsKey, MemoryPath, PrefixPath, Split;
    var n := |Parts(prefixKey)| + depth;
    if ListedUnder(prefixKey, depth, other) == ListedUnder(prefixKey, depth, key) {
      ListedPathsAgree(prefixKey, depth, other, key);
    }
    if !IsShallow(prefixKey, depth, other) {
      KeyParts(other, n);
      StartsWithPrefixPath(key, Parts(other)[..n]);
      assert Parts(other)[..n] < Parts(key) <==> |Parts(key)| > n && Parts(key)[..n] == Parts(other)[..n];
    }
  }

  // Every directory of the listing has a deeper memory below it.
  lemma EveryPrefixHasAMemory(keys: seq<string>, prefixKey: string, depth: nat, path: string)
    requires forall k | k in keys :: IsKey(k)
    requires path in Listing(keys, prefixKey, depth) && Listing(keys, prefixKey, depth)[path] == PrefixItem
    ensures exists key | key in keys ::
              InScope(prefixKey, key) && path <= MemoryPath(key) && |Parts(key)| > |Parts(prefixKey)| + depth
  {
    var key := ListedHasKey(keys, prefixKey, depth, path);
    KeyIsListed(keys, prefixKey, depth, key);
    KeyParts(key, |Parts(prefixKey)| + depth);
    StartsWithPrefixPath(key, Parts(key)[..|Parts(prefixKey)| + depth]);
  }

  // ------------------------------------------------------------------ truncation

  // A listed path cut to at most `n` parts.
  function Truncate(path: string, n: nat): string {
    var split := Split(path, '/');
    if path == "" || |split| < n + 2 then path
    else PrefixPath(split[1..n + 1])
  }

  lemma TruncateListed(prefixKey: string, depth: nat, key: string)
    requires IsKey(key) && InScope(prefixKey, key)
    ensures Truncate(ListedUnder(prefixKey, depth + 1, key), |Parts(prefixKey)| + depth)
         == ListedUnder(prefixKey, depth, key)
  {
    hide Split, Join, InScope, IsKey, PrefixPath;
    var n := |Parts(prefixKey)| + depth;
    KeyEnd(key);
    MemoryPathSplits(key);
    if IsShallow(prefixKey, depth + 1, key) {
      if !IsShallow(prefixKey, depth, key) {
        assert ([""] + Parts(key))[1..n + 1] == Parts(key)[..n];
      }
    } else {
      var cut := Parts(key)[..n + 1];
      KeyParts(key, n + 1);
      PrefixPathSplits(cut);
      assert ([""] + cut + [""])[1..n + 1] == Parts(key)[..n];
    }
  }

  function TruncateAll(paths: set<string>, n: nat): set<string> {
    set path | path in paths :: Truncate(path, n)
  }

  lemma DeepPathIsCut(keys: seq<string>, prefixKey: string, depth: nat, path: string)
    requires forall key | key in keys :: IsKey(key)
    requires path in Listing(keys, prefixKey, depth + 1)
    ensures Truncate(path, |Parts(prefixKey)| + depth) in Listing(keys, prefixKey, depth)
  {
    hide IsKey, InScope, ListedUnder, Truncate, Listing, Parts;
    var key := ListedHasKey(keys, prefixKey, depth + 1, path);
    TruncateListed(prefixKey, depth, key);
    KeyIsListed(keys, prefixKey, depth, key);
  }

  lemma ShallowPathHasSource(keys: seq<string>, prefixKey: string, depth: nat, path: string) returns (deeper: string)
    requires forall key | key in keys :: IsKey(key)
    requires path in Listing(keys, prefixKey, depth)
    ensures deeper in Listing(keys, prefixKey, depth + 1)
    ensures Truncate(deeper, |Parts(prefixKey)| + depth) == path
  {
    hide IsKey, InScope, ListedUnder, Truncate, Listing, Parts;
    var key := ListedHasKey(keys, prefixKey, depth, path);
    TruncateListed(prefixKey, depth, key);
    KeyIsListed(keys, prefixKey, depth + 1, key);
    deeper := ListedUnder(prefixKey, depth + 1, key);
  }

  // Cutting the listing at depth d + 1 to d parts gives the paths of the listing at depth d.
  lemma TruncatedPaths(keys: seq<string>, prefixKey: string, depth: nat)
    requires forall key | key in keys :: IsKey(key)
    ensures TruncateAll(Listing(keys, prefixKey, depth + 1).Keys, |Parts(prefixKey)| + depth)
         == Listing(keys, prefixKey, depth).Keys
  {
    hide IsKey, Truncate, Listing, Parts;
    var n := |Parts(prefixKey)| + depth;
    var deep, shallow := Listing(keys, prefixKey, depth + 1), Listing(keys, prefixKey, depth);
    forall path | path in deep.Keys
      ensures Truncate(path, n) in shallow.Keys
    {
      DeepPathIsCut(keys, prefixKey, depth, path);
    }
    forall path | path in shallow.Keys
      ensures path in TruncateAll(deep.Keys, n)
    {
      var deeper := ShallowPathHasSource(keys, prefixKey, depth, path);
    }
  }

  // A listing cut to `n` parts: what is not cut stays, what is becomes a directory.
  function TruncateListing(items: map<string, Item>, n: nat): map<string, Item> {
    map path | path in TruncateAll(items.Keys, n) :: if path in items then items[path] else PrefixItem
  }

  // A memory is listed under the same path at both depths or is rolled up at the
  // smaller one.
  lemma SameItemOrRolledUp(keys: seq<string>, prefixKey: string, depth: nat, key: string)
    requires forall k | k in keys :: IsKey(k)
    requires key in keys && InScope(prefixKey, key)
    ensures var path := ListedUnder(prefixKey, depth, key);
      var deep := Listing(keys, prefixKey, depth + 1);
      ItemFor(prefixKey, depth, key) == if path in deep then deep[path] else PrefixItem
  {
    hide IsKey, InScope, Listing, Parts, MemoryPath, PrefixPath;
    var path := ListedUnder(prefixKey, depth, key);
    KeyIsListed(keys, prefixKey, depth + 1, key);
    if IsShallow(prefixKey, depth, key) {
      assert path == ListedUnder(prefixKey, depth + 1, key);
    } else if path in Listing(keys, prefixKey, depth + 1) {
      var other := ListedHasKey(keys, prefixKey, depth + 1, path);
      KeyIsListed(keys, prefixKey, depth + 1, other);
      RolledUpPathIsShort(prefixKey, depth, key, other);
    }
  }

  // The directory of a memory rolled up at depth d is no path of depth d + 1.
  lemma RolledUpPathIsShort(prefixKey: string, depth: nat, key: string, other: string)
    requires IsKey(key) && IsKey(other) && !IsShallow(prefixKey, depth, key)
    ensures ListedUnder(prefixKey, depth, key) != ListedUnder(prefixKey, depth + 1, other)
  {
    hide IsKey, Parts, MemoryPath, PrefixPath;
    var n := |Parts(prefixKey)| + depth;
    KeyParts(key, n);
    if IsShallow(prefixKey, depth + 1, other) {
      PathsNeverCollide(other, Parts(key)[..n]);
    } else {
      KeyParts(other, n + 1);
      assert |Parts(key)[..n]| != |Parts(other)[..n + 1]|;
      if ListedUnder(prefixKey, depth, key) == ListedUnder(prefixKey, depth + 1, other) {
        PrefixPathIsInjective(Parts(key)[..n], Parts(other)[..n + 1]);
      }
    }
  }

  // The listing at depth d + 1, cut to d parts, is the listing at depth d, paths and items.
  lemma TruncationGivesShallowerListing(keys: seq<string>, prefixKey: string, depth: nat)
    requires forall key | key in keys :: IsKey(key)
    ensures TruncateListing(Listing(keys, prefixKey, depth + 1), |Parts(prefixKey)| + depth)
         == Listing(keys, prefixKey, depth)
  {
    hide IsKey, Listing, Parts, TruncateAll, ListedUnder, ItemFor, InScope;
    var n := |Parts(prefixKey)| + depth;
    var deep, shallow := Listing(keys, prefixKey, depth + 1), Listing(keys, prefixKey, depth);
    TruncatedPaths(keys, prefixKey, depth);
    forall path | path in shallow
      ensures TruncateListing(deep, n)[path] == shallow[path]
    {
      var key := ListedHasKey(keys, prefixKey, depth, path);
      KeyIsListed(keys, prefixKey, depth, key);
      SameItemOrRolledUp(keys, prefixKey, depth, key);
    }
    assert TruncateListing(deep, n).Keys == shallow.Keys;
  }

  // What decides how a memory in scope is listed is the number of its parts: with
  // at most `depth` more than the prefix it is listed itself, and otherwise under
  // the directory of that many of its parts.
  lemma ListedByDepth(keys: seq<string>, prefixKey: string, depth: nat, key: string)
    requires forall k | k in keys :: IsKey(k)
    requires key in keys && InScope(prefixKey, key)
    ensures var items, parts := Listing(keys, prefixKey, depth), Split(key, '/');
      var n := (if prefixKey == "" then 0 else |Split(prefixKey, '/')|) + depth;
      if |parts| <= n then "/" + key in items && items["/" + key] == MemoryItem(key)
      else
        var path := if n == 0 then "/" else "/" + Join(parts[..n], '/') + "/";
        path in items && items[path] == PrefixItem
  {
    hide InScope, IsKey, Listing, Join, Split;
    KeyEnd(key);
    KeyIsListed(keys, prefixKey, depth, key);
  }
}
