/**
 The loops that check a configuration, and what its secret-free export is: the known
 credential paths redacted first, then the sweep.
 */
module ConfigExport {
  import opened Options
  import opened Paths
  import opened Redaction
  import opened SkippedPaths

  // ----- reading and redacting one path -----

  function IndexOf(entries: seq<Entry>, key: string): (r: Option<nat>)
    ensures r.Some? ==> r.value < |entries| && entries[r.value].key == key
    ensures r.Some? ==> forall i | 0 <= i < r.value :: entries[i].key != key
    ensures r.None? ==> forall i | 0 <= i < |entries| :: entries[i].key != key
  {
    if entries == [] then None
    else if entries[0].key == key then Some(0)
    else
      match IndexOf(entries[1..], key)
      case None => None
      case Some(i) => Some(i + 1)
  }

  lemma IndexIsFirst(entries: seq<Entry>, key: string, i: nat)
    requires i < |entries| && entries[i].key == key && forall k | 0 <= k < i :: entries[k].key != key
    ensures IndexOf(entries, key) == Some(i)
  {
  }

  /** What stands at a path of dictionary keys. */
  function Read(entries: seq<Entry>, path: seq<string>): Option<Node>
    requires path != []
    decreases |path|
  {
    match IndexOf(entries, path[0])
    case None => None
    case Some(i) =>
      if |path| == 1 then Some(entries[i].value)
      else if entries[i].value.Dict? then Read(entries[i].value.entries, path[1..])
      else None
  }

  /** Replaces whatever stands at the path, unless it is absent or null. */
  function RedactPath(entries: seq<Entry>, path: seq<string>): (r: seq<Entry>)
    requires path != []
    ensures |r| == |entries| && forall i | 0 <= i < |r| :: r[i].key == entries[i].key
    decreases |path|
  {
    match IndexOf(entries, path[0])
    case None => entries
    case Some(i) =>
      var value := entries[i].value;
      if |path| == 1 then
        if value.Null? then entries else entries[i := Entry(path[0], Str(REDACTED))]
      else if value.Dict? then entries[i := Entry(path[0], Dict(RedactPath(value.entries, path[1..])))]
      else entries
  }

  /** A node after its path was redacted. */
  function Hidden(node: Option<Node>): Option<Node> {
    match node
    case None => None
    case Some(n) => if n.Null? then Some(Null) else Some(Str(REDACTED))
  }

  lemma SameIndex(a: seq<Entry>, b: seq<Entry>, key: string)
    requires |a| == |b| && forall i | 0 <= i < |a| :: a[i].key == b[i].key
    ensures IndexOf(a, key) == IndexOf(b, key)
  {
    if IndexOf(a, key).Some? {
      IndexIsFirst(b, key, IndexOf(a, key).value);
    } else if IndexOf(b, key).Some? {
      IndexIsFirst(a, key, IndexOf(b, key).value);
    }
  }

  lemma {:induction false} ReadRedacted(entries: seq<Entry>, path: seq<string>)
    requires path != []
    ensures Read(RedactPath(entries, path), path) == Hidden(Read(entries, path))
    decreases |path|
  {
    SameIndex(entries, RedactPath(entries, path), path[0]);
    var i := IndexOf(entries, path[0]);
    if i.Some? && |path| > 1 && entries[i.value].value.Dict? {
      ReadRedacted(entries[i.value].value.entries, path[1..]);
    }
  }

  /** Redacting one path leaves what stands at every other one that does not contain or extend it. */
  lemma {:induction false} ReadElsewhere(entries: seq<Entry>, path: seq<string>, other: seq<string>)
    requires path != [] && other != [] && Apart(path, other)
    ensures Read(RedactPath(entries, path), other) == Read(entries, other)
    decreases |path|
  {
    var after := RedactPath(entries, path);
    SameIndex(entries, after, other[0]);
    if path[0] == other[0] {
      var i := IndexOf(entries, path[0]);
      ApartBelow(path, other);
      if i.Some? && entries[i.value].value.Dict? {
        ReadElsewhere(entries[i.value].value.entries, path[1..], other[1..]);
      }
    }
  }

  /** The sweep redacts what stands at a path by the path's last key. */
  lemma {:induction false} ReadSwept(secret: Secret, entries: seq<Entry>, path: seq<string>)
    requires path != []
    ensures Read(RedactDict(secret, entries), path) ==
              match Read(entries, path)
              case None => None
              case Some(node) => Some(RedactNode(secret, path[|path| - 1], node))
    decreases |path|
  {
    var after := RedactDict(secret, entries);
    forall i | 0 <= i < |entries|
      ensures after[i] == Entry(entries[i].key, RedactNode(secret, entries[i].key, entries[i].value))
    {
      RedactDictAt(secret, entries, i);
    }
    SameIndex(entries, after, path[0]);
    var i := IndexOf(entries, path[0]);
    if i.Some? && |path| > 1 && entries[i.value].value.Dict? {
      ReadSwept(secret, entries[i.value].value.entries, path[1..]);
    }
  }

  // ----- the loops -----

  method CheckSecretsInDict(secret: Secret, data: seq<Entry>, path: string) returns (offender: Option<string>)
    ensures offender == CheckDict(secret, path, data)
    decreases data
  {
    for i := 0 to |data|
      invariant CheckDict(secret, path, data) == CheckDict(secret, path, data[i..])
    {
      assert data[i..][1..] == data[i + 1..];
      var key := data[i].key;
      var currentPath := if path != "" then path + "." + key else key;
      match data[i].value {
        case Dict(sub) =>
          offender := CheckSecretsInDict(secret, sub, currentPath);
          if offender.Some? { return; }
        case List(items) =>
          offender := CheckSecretsInList(secret, items, currentPath, key);
          if offender.Some? { return; }
        case Str(text) =>
          if text != "" && secret(key, text) { return Some(currentPath); }
        case Other(_) =>
        case Null =>
      }
    }
    return None;
  }

  method CheckSecretsInList(secret: Secret, items: seq<Node>, path: string, parentKey: string)
    returns (offender: Option<string>)
    ensures offender == CheckList(secret, path, parentKey, 0, items)
    decreases items
  {
    for i := 0 to |items|
      invariant CheckList(secret, path, parentKey, 0, items) == CheckList(secret, path, parentKey, i, items[i..])
    {
      assert items[i..][1..] == items[i + 1..];
      var elementPath := ElementPath(path, i);
      match items[i] {
        case Dict(sub) =>
          offender := CheckSecretsInDict(secret, sub, elementPath);
          if offender.Some? { return; }
        case List(inner) =>
          offender := CheckSecretsInList(secret, inner, elementPath, parentKey);
          if offender.Some? { return; }
        case Str(text) =>
          if text != "" && secret(parentKey, text) { return Some(elementPath); }
        case Other(_) =>
        case Null =>
      }
    }
    return None;
  }

  method CheckSecretsInDictSkipPaths(secret: Secret, data: seq<Entry>, path: string, skip: set<seq<string>>)
    returns (offender: Option<string>)
    ensures offender == CheckSkipping(secret, skip, path, data)
    ensures offender == CheckDict(secret, path, Prune(skip, path, data))
    decreases data
  {
    SkippingIsPruning(secret, skip, path, data);
    for i := 0 to |data|
      invariant CheckSkipping(secret, skip, path, data) == CheckSkipping(secret, skip, path, data[i..])
    {
      assert data[i..][1..] == data[i + 1..];
      var key := data[i].key;
      var currentPath := if path != "" then path + "." + key else key;
      if Split(currentPath) in skip { continue; }
      match data[i].value {
        case Dict(sub) =>
          offender := CheckSecretsInDictSkipPaths(secret, sub, currentPath, skip);
          if offender.Some? { return; }
        case List(items) =>
          offender := CheckSecretsInList(secret, items, currentPath, key);
          if offender.Some? { return; }
        case Str(text) =>
          if text != "" && secret(key, text) { return Some(currentPath); }
        case Other(_) =>
        case Null =>
      }
    }
    return None;
  }

  // ----- the export -----

  const POSTGRES_URL := ["storage", "postgres", "url"]
  const QDRANT_KEY := ["storage", "qdrant", "api_key"]
  const CACHE_URL := ["storage", "cache", "url"]
  const KNOWN := {POSTGRES_URL, QDRANT_KEY, CACHE_URL}

  function RedactPaths(data: seq<Entry>, paths: seq<seq<string>>): seq<Entry>
    requires [] !in paths
    decreases |paths|
  {
    if paths == [] then data else RedactPaths(RedactPath(data, paths[0]), paths[1..])
  }

  /** Some order of the known paths: they come from a set. */
  ghost predicate ListsKnown(paths: seq<seq<string>>) {
    && (forall p :: p in paths <==> p in KNOWN)
    && forall i, k | 0 <= i < k < |paths| :: paths[i] != paths[k]
  }

  ghost predicate PairwiseApart(paths: seq<seq<string>>) {
    forall i, k | 0 <= i < k < |paths| :: Apart(paths[i], paths[k])
  }

  lemma {:induction false} ReadFarFromPaths(data: seq<Entry>, paths: seq<seq<string>>, q: seq<string>)
    requires q != [] && [] !in paths && forall p | p in paths :: Apart(p, q)
    ensures Read(RedactPaths(data, paths), q) == Read(data, q)
    decreases |paths|
  {
    if paths != [] {
      ReadElsewhere(data, paths[0], q);
      ReadFarFromPaths(RedactPath(data, paths[0]), paths[1..], q);
    }
  }

  lemma {:induction false} ReadRedactedPath(data: seq<Entry>, paths: seq<seq<string>>, i: nat)
    requires [] !in paths && PairwiseApart(paths) && i < |paths|
    ensures Read(RedactPaths(data, paths), paths[i]) == Hidden(Read(data, paths[i]))
    decreases |paths|
  {
    if i == 0 {
      ReadRedacted(data, paths[0]);
      forall p | p in paths[1..]
        ensures Apart(p, paths[0])
      {
        var k :| 0 <= k < |paths[1..]| && paths[1..][k] == p;
        assert Apart(paths[0], paths[k + 1]);
      }
      ReadFarFromPaths(RedactPath(data, paths[0]), paths[1..], paths[0]);
    } else {
      ReadRedactedPath(RedactPath(data, paths[0]), paths[1..], i - 1);
      assert Apart(paths[0], paths[i]);
      ReadElsewhere(data, paths[0], paths[i]);
    }
  }

  lemma KnownPathsAreApart(p: seq<string>, q: seq<string>)
    requires p in KNOWN && q in KNOWN && p != q
    ensures p != [] && q != [] && Apart(p, q)
  {
    assert "postgres"[0] == 'p' && "qdrant"[0] == 'q' && "cache"[0] == 'c';
    assert p[1] != q[1];
  }

  function Exported(secret: Secret, raw: seq<Entry>, paths: seq<seq<string>>): seq<Entry>
    requires [] !in paths
  {
    RedactDict(secret, RedactPaths(raw, paths))
  }

  lemma ListedPathsAreApart(paths: seq<seq<string>>)
    requires ListsKnown(paths)
    ensures PairwiseApart(paths) && [] !in paths
  {
    forall i, k | 0 <= i < k < |paths|
      ensures Apart(paths[i], paths[k])
    {
      assert paths[i] in paths && paths[k] in paths;
      KnownPathsAreApart(paths[i], paths[k]);
    }
  }

  lemma ReadExported(secret: Secret, raw: seq<Entry>, paths: seq<seq<string>>, i: nat)
    requires [] !in paths && PairwiseApart(paths) && i < |paths|
    ensures Read(Exported(secret, raw, paths), paths[i]) == Hidden(Read(raw, paths[i]))
  {
    ReadRedactedPath(raw, paths, i);
    ReadSwept(secret, RedactPaths(raw, paths), paths[i]);
  }

  /** No known credential survives an export, however harmless it looks: it is absent, null or the placeholder. */
  lemma ExportHidesKnownPaths(secret: Secret, raw: seq<Entry>, paths: seq<seq<string>>, path: seq<string>)
    requires ListsKnown(paths) && path in KNOWN
    ensures [] !in paths && path != []
    ensures Read(Exported(secret, raw, paths), path) == Hidden(Read(raw, path))
  {
    ListedPathsAreApart(paths);
    assert path in paths;
    var i :| 0 <= i < |paths| && paths[i] == path;
    ReadExported(secret, raw, paths, i);
  }

  /** Away from the known paths an export shows what was there, redacted by the sweep alone. */
  lemma ExportKeepsTheRest(secret: Secret, raw: seq<Entry>, paths: seq<seq<string>>, q: seq<string>)
    requires ListsKnown(paths) && [] !in paths && q != [] && forall p | p in KNOWN :: Apart(p, q)
    ensures Read(Exported(secret, raw, paths), q) ==
              match Read(raw, q)
              case None => None
              case Some(node) => Some(RedactNode(secret, q[|q| - 1], node))
  {
    ReadFarFromPaths(raw, paths, q);
    ReadSwept(secret, RedactPaths(raw, paths), q);
  }

  /** The three credentials the export promises to hide, by name. */
  lemma ExportHidesCredentials(secret: Secret, raw: seq<Entry>, paths: seq<seq<string>>, path: seq<string>)
    requires ListsKnown(paths)
    requires path in {["storage", "postgres", "url"], ["storage", "qdrant", "api_key"], ["storage", "cache", "url"]}
    ensures [] !in paths
    ensures Read(Exported(secret, raw, paths), path) ==
              match Read(raw, path)
              case None => None
              case Some(Null) => Some(Null)
              case Some(_) => Some(Str("<redacted>"))
  {
    ExportHidesKnownPaths(secret, raw, paths, path);
  }

  /** And nothing else by name: a path apart from those three sees only the sweep. */
  lemma ExportKeepsOthers(secret: Secret, raw: seq<Entry>, paths: seq<seq<string>>, q: seq<string>)
    requires ListsKnown(paths) && [] !in paths && q != []
    requires Apart(["storage", "postgres", "url"], q) && Apart(["storage", "qdrant", "api_key"], q)
    requires Apart(["storage", "cache", "url"], q)
    ensures Read(Exported(secret, raw, paths), q) ==
              match Read(raw, q)
              case None => None
              case Some(node) => Some(RedactNode(secret, q[|q| - 1], node))
  {
    ExportKeepsTheRest(secret, raw, paths, q);
  }
}
