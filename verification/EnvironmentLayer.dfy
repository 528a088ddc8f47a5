/** Prefixed environment variables as a nested configuration mapping (core/settings.py). */
module EnvironmentLayer {
  import opened Wrappers
  import Ordering
  import opened SettingsLayers
  import opened NestedMappings

  const ENV_PREFIX: string := "SPORTS_ANALYTICS_"
  const CONFIG_PATH_ENV_VAR: string := "SPORTS_ANALYTICS_CONFIG_PATH"

  /* ---------- Assigning one variable ---------- */

  /** No mapping is needed where a scalar is, and no scalar where a mapping is. */
  ghost predicate Assignable(contents: Contents, parts: Path) {
    && (forall p :: ProperPrefix(p, parts) ==> !KindIn(contents, p).Scalar?)
    && KindIn(contents, parts) != Mapping
  }

  /** What every path holds after an assignment. */
  ghost function AssignedKind(contents: Contents, parts: Path, value: string, p: Path): Kind {
    if p == parts then Scalar(value) else if ProperPrefix(p, parts) then Mapping else KindIn(contents, p)
  }

  /** A failed assignment met a scalar, so it had created nothing. */
  lemma NothingCreated(root: Node, nodes: map<Path, Node>, contents: Contents, parts: Path, i: nat)
    requires IsTree(root, nodes, contents) && i < |parts| && KindIn(contents, parts[..i + 1]) != Absent
    ensures forall p :: |p| <= i && p == parts[..|p|] ==> KindIn(contents, p) == Mapping
  {
    hide IsTree, KindIn;
    forall p | |p| <= i && p == parts[..|p|] ensures KindIn(contents, p) == Mapping {
      assert parts[..i + 1][..|p|] == parts[..|p|];
      DefinedBelowMappings(root, nodes, contents, parts[..i + 1], p);
    }
  }

  /** _assign_nested: a cursor walks down the mappings, creating the missing ones. */
  method AssignNested(tree: NestedMapping, parts: Path, value: string) returns (ok: bool)
    requires tree.Valid() && parts != []
    modifies tree`nodes, tree.nodes.Values
    ensures tree.Valid() && fresh(tree.nodes.Values - old(tree.nodes.Values))
    ensures ok <==> Assignable(old(tree.Snapshot()), parts)
    ensures !ok ==> forall p :: tree.KindAt(p) == old(tree.KindAt(p))
    ensures ok ==> forall p :: tree.KindAt(p) == AssignedKind(old(tree.Snapshot()), parts, value, p)
  {
    hide IsTree, KindIn;
    ghost var before, root, nodes := tree.Snapshot(), tree.root, tree.nodes;
    RootIsMapping(root, nodes, before);
    var cursor := tree.root;
    var n := |parts| - 1;
    for i := 0 to n
      invariant tree.Valid() && fresh(tree.nodes.Values - old(tree.nodes.Values))
      invariant parts[..i] in tree.nodes && tree.nodes[parts[..i]] == cursor
      invariant forall p :: tree.KindAt(p) == if |p| <= i && p == parts[..|p|] then Mapping else KindIn(before, p)
      invariant forall p :: |p| <= i && p == parts[..|p|] ==> !KindIn(before, p).Scalar?
    {
      assert parts[..i + 1] == parts[..i] + [parts[i]];
      InValues(tree.nodes, parts[..i]);
      var next := tree.Descend(parts[..i], cursor, parts[i]);
      if next.None? {
        assert ProperPrefix(parts[..i + 1], parts);
        assert KindIn(before, parts[..i + 1]).Scalar?;
        NothingCreated(root, nodes, before, parts, i);
        return false;
      }
      cursor := next.value;
    }
    assert parts == parts[..n] + [parts[n]];
    InValues(tree.nodes, parts[..n]);
    ok := tree.SetLeaf(parts[..n], cursor, parts[n], value);
    assert forall p :: ProperPrefix(p, parts) <==> |p| <= n && p == parts[..|p|];
    if !ok {
      assert parts[..n + 1] == parts;
      NothingCreated(root, nodes, before, parts, n);
    }
  }

  lemma InValues(nodes: map<Path, Node>, path: Path)
    requires path in nodes
    ensures nodes[path] in nodes.Values
  {
  }

  lemma RootIsMapping(root: Node, nodes: map<Path, Node>, contents: Contents)
    requires IsTree(root, nodes, contents)
    ensures [] in nodes && nodes[[]] == root && KindIn(contents, []) == Mapping
  {
  }

  /* ---------- Assigning a list of variables ---------- */

  datatype Entry = Entry(path: Path, value: string)

  /** What a path holds after the entries have been assigned in turn. */
  ghost function KindAfter(entries: seq<Entry>, p: Path): Kind {
    if entries == [] then (if p == [] then Mapping else Absent)
    else
      var last := entries[|entries| - 1];
      if p == last.path then Scalar(last.value)
      else if ProperPrefix(p, last.path) then Mapping
      else KindAfter(entries[..|entries| - 1], p)
  }

  ghost predicate PrefixFree(entries: seq<Entry>) {
    forall d, e :: d in entries && e in entries ==> !ProperPrefix(d.path, e.path)
  }

  ghost predicate NonEmptyPaths(entries: seq<Entry>) {
    forall e :: e in entries ==> e.path != []
  }

  lemma {:induction false} KindAfterMeaning(entries: seq<Entry>, p: Path)
    requires PrefixFree(entries) && NonEmptyPaths(entries)
    ensures KindAfter(entries, p).Scalar? <==> exists e :: e in entries && e.path == p
    ensures KindAfter(entries, p) == Mapping <==> p == [] || exists e :: e in entries && ProperPrefix(p, e.path)
  {
    hide ProperPrefix;
    if entries != [] {
      var n := |entries| - 1;
      var front, last := entries[..n], entries[n];
      assert entries == front + [last];
      assert last in entries;
      KindAfterMeaning(front, p);
    }
  }

  /** An entry can be assigned after prefix-free ones exactly when the longer list is prefix-free too. */
  lemma NextAssignable(entries: seq<Entry>, e: Entry, contents: Contents)
    requires PrefixFree(entries) && NonEmptyPaths(entries) && e.path != []
    requires forall p :: KindIn(contents, p) == KindAfter(entries, p)
    ensures Assignable(contents, e.path) <==> PrefixFree(entries + [e])
  {
    hide KindIn, KindAfter;
    forall p { KindAfterMeaning(entries, p); }
    assert forall d :: d in entries + [e] <==> d in entries || d == e;
    assert !ProperPrefix(e.path, e.path);
    assert Assignable(contents, e.path) <==>
           forall d :: d in entries ==> !ProperPrefix(d.path, e.path) && !ProperPrefix(e.path, d.path);
  }

  /* ---------- The environment ---------- */

  function LowerChar(c: char): char {
    if 'A' <= c <= 'Z' then ((c as int) - ('A' as int) + ('a' as int)) as char else c
  }

  function Lower(s: string): string {
    seq(|s|, i requires 0 <= i < |s| => LowerChar(s[i]))
  }

  /** str.split("__") */
  function SplitDelimiter(s: string): (r: seq<string>)
    ensures r != []
  {
    if |s| < 2 then [s]
    else if s[0] == '_' && s[1] == '_' then [""] + SplitDelimiter(s[2..])
    else
      var rest := SplitDelimiter(s[1..]);
      [[s[0]] + rest[0]] + rest[1..]
  }

  /** The configuration path a variable addresses; None for variables that are not configuration. */
  function VariablePath(key: string): (r: Option<Path>)
    ensures r.Some? ==> r.value != [] && ENV_PREFIX <= key
  {
    if ENV_PREFIX <= key && key != CONFIG_PATH_ENV_VAR then
      var segments := SplitDelimiter(key[|ENV_PREFIX|..]);
      Some(seq(|segments|, i requires 0 <= i < |segments| => Lower(segments[i])))
    else None
  }

  datatype EnvironmentError = EmptyPath(key: string) | EmptySegment(key: string) | PathConflict(key: string)

  /** The configuration variables among `keys`, as entries in the same order. */
  ghost function EntriesOf(keys: seq<string>, environ: map<string, string>): seq<Entry>
    requires forall k :: k in keys ==> k in environ
  {
    if keys == [] then []
    else
      var last := keys[|keys| - 1];
      assert last in keys;
      var before := EntriesOf(keys[..|keys| - 1], environ);
      match VariablePath(last)
      case None => before
      case Some(path) => before + [Entry(path, environ[last])]
  }

  lemma {:induction false} EntriesMeaning(keys: seq<string>, environ: map<string, string>)
    requires forall k :: k in keys ==> k in environ
    ensures NonEmptyPaths(EntriesOf(keys, environ))
    ensures forall e :: e in EntriesOf(keys, environ) <==>
              exists k :: k in keys && VariablePath(k) == Some(e.path) && e.value == environ[k]
  {
    if keys != [] {
      var n := |keys| - 1;
      var front, last := keys[..n], keys[n];
      assert keys == front + [last];
      EntriesMeaning(front, environ);
      EntriesStep(front, last, environ);
    }
  }

  lemma EntriesStep(keys: seq<string>, key: string, environ: map<string, string>)
    requires (forall k :: k in keys ==> k in environ) && key in environ
    ensures VariablePath(key).None? ==> EntriesOf(keys + [key], environ) == EntriesOf(keys, environ)
    ensures VariablePath(key).Some? ==>
              EntriesOf(keys + [key], environ) ==
              EntriesOf(keys, environ) + [Entry(VariablePath(key).value, environ[key])]
    ensures WellFormedKeys(set k | k in keys + [key]) <==>
              WellFormedKeys(set k | k in keys) && (VariablePath(key).Some? ==> "" !in VariablePath(key).value)
  {
    hide VariablePath;
    assert (keys + [key])[..|keys|] == keys;
    assert (set k | k in keys + [key]) == (set k | k in keys) + {key};
  }

  ghost predicate WellFormedKeys(keys: set<string>) {
    forall k :: k in keys && VariablePath(k).Some? ==> "" !in VariablePath(k).value
  }

  /** No path segment is empty and no variable's path is a strict prefix of another's. */
  ghost predicate Nestable(environ: map<string, string>) {
    && WellFormedKeys(environ.Keys)
    && forall k, l :: k in environ && l in environ && VariablePath(k).Some? && VariablePath(l).Some? ==>
         !ProperPrefix(VariablePath(k).value, VariablePath(l).value)
  }

  lemma NestableMeaning(keys: seq<string>, environ: map<string, string>)
    requires forall k :: k in keys <==> k in environ
    ensures Nestable(environ) <==> WellFormedKeys(environ.Keys) && PrefixFree(EntriesOf(keys, environ))
  {
    hide VariablePath, EntriesOf, ProperPrefix, WellFormedKeys;
    var entries := EntriesOf(keys, environ);
    EntriesMeaning(keys, environ);
    if PrefixFree(entries) {
      forall k, l | k in environ && l in environ && VariablePath(k).Some? && VariablePath(l).Some?
        ensures !ProperPrefix(VariablePath(k).value, VariablePath(l).value)
      {
        assert Entry(VariablePath(k).value, environ[k]) in entries;
        assert Entry(VariablePath(l).value, environ[l]) in entries;
      }
    }
  }

  lemma {:induction false} EntriesGrow(keys: seq<string>, n: nat, environ: map<string, string>)
    requires n <= |keys| && forall k :: k in keys ==> k in environ
    ensures forall e :: e in EntriesOf(keys[..n], environ) ==> e in EntriesOf(keys, environ)
  {
    EntriesMeaning(keys[..n], environ);
    EntriesMeaning(keys, environ);
  }

  /** The variables whose names sort before the key. */
  ghost function Before(environ: map<string, string>, key: string): map<string, string> {
    map k | k in environ && k != key && Ordering.StrLe(k, key) :: environ[k]
  }

  /** The error names the first variable that cannot be added to those before it, and why it cannot. */
  ghost predicate Explains(environ: map<string, string>, e: EnvironmentError) {
    && e.key in environ && VariablePath(e.key).Some? && Nestable(Before(environ, e.key))
    && match e
       case EmptyPath(key) => key == ENV_PREFIX
       case EmptySegment(key) => key != ENV_PREFIX && "" in VariablePath(key).value
       case PathConflict(key) =>
         && "" !in VariablePath(key).value
         && exists other :: other in Before(environ, key) && Clash(other, key)
  }

  /** One variable's path is a strict prefix of the other's. */
  ghost predicate Clash(k: string, l: string) {
    && VariablePath(k).Some? && VariablePath(l).Some?
    && (ProperPrefix(VariablePath(k).value, VariablePath(l).value) ||
        ProperPrefix(VariablePath(l).value, VariablePath(k).value))
  }

  lemma KeysBefore(keys: seq<string>, i: nat, environ: map<string, string>)
    requires i < |keys| && Ordering.NoDuplicates(keys) && Ordering.Sorted(keys, Ordering.StrLe)
    requires forall k :: k in keys <==> k in environ
    ensures forall k :: k in keys[..i] <==> k in Before(environ, keys[i])
  {
    hide Ordering.StrLe;
    forall k ensures k in keys[..i] <==> k in Before(environ, keys[i]) {
      if k in Before(environ, keys[i]) {
        var j :| 0 <= j < |keys| && keys[j] == k;
        if j > i { Ordering.StrLeAntisymmetric(k, keys[i]); }
      }
    }
  }

  lemma NestableSoFar(keys: seq<string>, i: nat, environ: map<string, string>)
    requires i < |keys| && Ordering.NoDuplicates(keys) && Ordering.Sorted(keys, Ordering.StrLe)
    requires forall k :: k in keys <==> k in environ
    requires WellFormedKeys(set k | k in keys[..i]) && PrefixFree(EntriesOf(keys[..i], environ))
    ensures Nestable(Before(environ, keys[i]))
  {
    hide VariablePath, EntriesOf, ProperPrefix, Ordering.NoDuplicates, Ordering.Sorted, Before;
    KeysBefore(keys, i, environ);
    EntriesMeaning(keys[..i], environ);
    var entries, before := EntriesOf(keys[..i], environ), Before(environ, keys[i]);
    forall k, l | k in before && l in before && VariablePath(k).Some? && VariablePath(l).Some?
      ensures !ProperPrefix(VariablePath(k).value, VariablePath(l).value)
    {
      assert Entry(VariablePath(k).value, environ[k]) in entries;
      assert Entry(VariablePath(l).value, environ[l]) in entries;
    }
  }

  lemma ConflictFound(keys: seq<string>, i: nat, environ: map<string, string>)
    requires i < |keys| && Ordering.NoDuplicates(keys) && Ordering.Sorted(keys, Ordering.StrLe)
    requires (forall k :: k in keys <==> k in environ) && VariablePath(keys[i]).Some?
    requires PrefixFree(EntriesOf(keys[..i], environ)) && !PrefixFree(EntriesOf(keys[..i] + [keys[i]], environ))
    ensures exists other :: other in Before(environ, keys[i]) && Clash(other, keys[i])
  {
    hide VariablePath, EntriesOf, ProperPrefix, Ordering.NoDuplicates, Ordering.Sorted, Before;
    KeysBefore(keys, i, environ);
    var done, entry := EntriesOf(keys[..i], environ), Entry(VariablePath(keys[i]).value, environ[keys[i]]);
    EntriesStep(keys[..i], keys[i], environ);
    EntriesMeaning(keys[..i], environ);
    var d, e :| d in done + [entry] && e in done + [entry] && ProperPrefix(d.path, e.path);
    assert !ProperPrefix(entry.path, entry.path) by { NotItsOwnPrefix(entry.path); }
    var earlier := if d in done then d else e;
    assert earlier in done;
    var other :| other in keys[..i] && VariablePath(other) == Some(earlier.path) && earlier.value == environ[other];
    assert Clash(other, keys[i]);
  }

  lemma NotItsOwnPrefix(p: Path)
    ensures !ProperPrefix(p, p)
  {
  }

  /** environ_to_nested_mapping */
  method EnvironToNestedMapping(environ: map<string, string>) returns (r: Result<NestedMapping, EnvironmentError>)
    ensures r.Ok? <==> Nestable(environ)
    ensures r.Ok? ==> r.value.Valid() && fresh(r.value) && fresh(r.value.nodes.Values)
    ensures r.Ok? ==> HoldsEnvironment(environ, r.value.Snapshot())
    ensures r.Err? ==> Explains(environ, r.error)
  {
    hide VariablePath, KindIn, IsTree, Assignable, KindAfter, Ordering.Sorted, Nestable, HoldsEnvironment, EntriesOf,
         PrefixFree, AssignedKind, WellFormedKeys, Clash, Before, Ordering.NoDuplicates;
    var nested := new NestedMapping();
    var keys := SortedKeys(environ.Keys);
    NestableMeaning(keys, environ);
    NoEntries(environ);
    assert keys[..0] == [] && (set k | k in keys[..0]) == {};
    for i := 0 to |keys|
      invariant nested.Valid() && fresh(nested) && fresh(nested.nodes.Values)
      invariant WellFormedKeys(set k | k in keys[..i])
      invariant PrefixFree(EntriesOf(keys[..i], environ))
      invariant forall p :: nested.KindAt(p) == KindAfter(EntriesOf(keys[..i], environ), p)
    {
      var key := keys[i];
      assert key in keys && keys[..i + 1] == keys[..i] + [key];
      EntriesStep(keys[..i], key, environ);
      var path := VariablePath(key);
      if path.None? {
        continue;
      }
      EmptySegmentFatal(environ.Keys, key);
      NestableSoFar(keys, i, environ);
      if key[|ENV_PREFIX|..] == "" {
        return Err(EmptyPath(key));
      }
      if "" in path.value {
        return Err(EmptySegment(key));
      }
      var ok := AssignVariable(nested, path.value, environ[key], keys[..i], key, environ);
      if !ok {
        ConflictFound(keys, i, environ);
        EntriesGrow(keys, i + 1, environ);
        if PrefixFree(EntriesOf(keys, environ)) {
          PrefixFreeMore(EntriesOf(keys[..i + 1], environ), EntriesOf(keys, environ));
        }
        return Err(PathConflict(key));
      }
    }
    assert keys[..|keys|] == keys && (set k | k in keys) == environ.Keys;
    EntriesHold(keys, environ, nested.Snapshot());
    return Ok(nested);
  }

  /** One iteration: assign the variable after those before it. */
  method AssignVariable(nested: NestedMapping, path: Path, value: string, ghost before: seq<string>, ghost key: string,
                        ghost environ: map<string, string>) returns (ok: bool)
    requires (forall k :: k in before ==> k in environ) && key in environ
    requires VariablePath(key) == Some(path) && value == environ[key]
    requires nested.Valid() && PrefixFree(EntriesOf(before, environ))
    requires forall p :: nested.KindAt(p) == KindAfter(EntriesOf(before, environ), p)
    modifies nested`nodes, nested.nodes.Values
    ensures nested.Valid() && fresh(nested.nodes.Values - old(nested.nodes.Values))
    ensures ok <==> PrefixFree(EntriesOf(before + [key], environ))
    ensures ok ==> forall p :: nested.KindAt(p) == KindAfter(EntriesOf(before + [key], environ), p)
  {
    hide VariablePath, KindIn, IsTree, Assignable, KindAfter, EntriesOf, PrefixFree, AssignedKind;
    ghost var done, entry, contents := EntriesOf(before, environ), Entry(path, value), nested.Snapshot();
    EntriesStep(before, key, environ);
    EntriesMeaning(before, environ);
    NextAssignable(done, entry, contents);
    ok := AssignNested(nested, path, value);
    if ok {
      forall p ensures nested.KindAt(p) == KindAfter(done + [entry], p) {
        KindAfterStep(done, entry, contents, p);
      }
    }
  }

  lemma NoEntries(environ: map<string, string>)
    ensures EntriesOf([], environ) == [] && PrefixFree([]) && WellFormedKeys({})
    ensures forall p :: KindAfter([], p) == if p == [] then Mapping else Absent
  {
  }

  lemma EmptySegmentFatal(keys: set<string>, key: string)
    requires key in keys && VariablePath(key).Some?
    ensures key[|ENV_PREFIX|..] == "" ==> "" in VariablePath(key).value
    ensures "" in VariablePath(key).value ==> !WellFormedKeys(keys)
  {
    if key[|ENV_PREFIX|..] == "" {
      assert VariablePath(key).value[0] == "";
    }
  }

  lemma KindAfterStep(done: seq<Entry>, entry: Entry, before: Contents, p: Path)
    requires KindIn(before, p) == KindAfter(done, p)
    ensures KindAfter(done + [entry], p) == AssignedKind(before, entry.path, entry.value, p)
  {
    assert (done + [entry])[..|done|] == done;
  }

  ghost predicate IsGreatestKey(keys: set<string>, p: Path, key: string) {
    && key in keys && VariablePath(key) == Some(p)
    && forall other :: other in keys && VariablePath(other) == Some(p) ==> Ordering.StrLe(other, key)
  }

  ghost predicate IsBelow(p: Path, key: string) {
    VariablePath(key).Some? && ProperPrefix(p, VariablePath(key).value)
  }

  /** The leaves are exactly the variables' paths, each with the value of the greatest raw key that maps to it;
      the mappings are the root and the strict prefixes of those paths; nothing else is defined. */
  ghost predicate HoldsEnvironment(environ: map<string, string>, contents: Contents) {
    && (forall p, key :: IsGreatestKey(environ.Keys, p, key) ==> KindIn(contents, p) == Scalar(environ[key]))
    && (forall p :: KindIn(contents, p).Scalar? ==> exists key :: IsGreatestKey(environ.Keys, p, key))
    && (forall p :: KindIn(contents, p) == Mapping <==> p == [] || exists key :: key in environ && IsBelow(p, key))
  }

  /** In sorted order the last variable of a path is the greatest, and its value stays. */
  lemma {:induction false} LastKeyStays(keys: seq<string>, environ: map<string, string>, p: Path) returns (key: string)
    requires (forall k :: k in keys ==> k in environ) && Ordering.Sorted(keys, Ordering.StrLe)
    requires PrefixFree(EntriesOf(keys, environ))
    requires exists k :: k in keys && VariablePath(k) == Some(p)
    ensures IsGreatestKey((set k | k in keys), p, key)
    ensures KindAfter(EntriesOf(keys, environ), p) == Scalar(environ[key])
  {
    hide VariablePath, Ordering.StrLe, ProperPrefix, EntriesOf, WellFormedKeys, KindAfter, PrefixFree;
    var n := |keys| - 1;
    var front, last := keys[..n], keys[n];
    assert keys == front + [last] && last in keys;
    EntriesStep(front, last, environ);
    var before := EntriesOf(front, environ);
    if VariablePath(last) == Some(p) {
      key := last;
      LastIsGreatest(keys);
      LastEntryDecides(before, Entry(p, environ[last]));
    } else {
      EntriesGrow(keys, n, environ);
      PrefixFreeMore(before, EntriesOf(keys, environ));
      key := LastKeyStays(front, environ, p);
      if VariablePath(last).Some? {
        EntriesMeaning(front, environ);
        LastEntryApart(before, Entry(p, environ[key]), Entry(VariablePath(last).value, environ[last]));
      }
    }
  }

  lemma LastEntryDecides(before: seq<Entry>, last: Entry)
    ensures KindAfter(before + [last], last.path) == Scalar(last.value)
  {
  }

  lemma LastEntryApart(before: seq<Entry>, e: Entry, last: Entry)
    requires PrefixFree(before + [last]) && e in before && e.path != last.path
    ensures KindAfter(before + [last], e.path) == KindAfter(before, e.path)
  {
    hide ProperPrefix;
    assert (before + [last])[..|before|] == before;
    assert e in before + [last] && last in before + [last];
  }

  lemma PrefixFreeMore(fewer: seq<Entry>, more: seq<Entry>)
    requires PrefixFree(more) && forall e :: e in fewer ==> e in more
    ensures PrefixFree(fewer)
  {
  }

  lemma LastIsGreatest(keys: seq<string>)
    requires keys != [] && Ordering.Sorted(keys, Ordering.StrLe)
    ensures forall k :: k in keys ==> Ordering.StrLe(k, keys[|keys| - 1])
  {
    Ordering.StrLeReflexive(keys[|keys| - 1]);
  }

  lemma EntriesHold(keys: seq<string>, environ: map<string, string>, contents: Contents)
    requires (forall k :: k in keys <==> k in environ) && Ordering.Sorted(keys, Ordering.StrLe)
    requires PrefixFree(EntriesOf(keys, environ))
    requires forall p :: KindIn(contents, p) == KindAfter(EntriesOf(keys, environ), p)
    ensures HoldsEnvironment(environ, contents)
  {
    hide VariablePath, KindIn, KindAfter, EntriesOf, Ordering.StrLe, Ordering.Sorted, PrefixFree, ProperPrefix;
    var entries := EntriesOf(keys, environ);
    EntriesMeaning(keys, environ);
    assert (set k | k in keys) == environ.Keys;
    forall p, key | IsGreatestKey(environ.Keys, p, key) ensures KindIn(contents, p) == Scalar(environ[key]) {
      var last := LastKeyStays(keys, environ, p);
      Ordering.StrLeAntisymmetric(key, last);
    }
    forall p | KindIn(contents, p).Scalar? ensures exists key :: IsGreatestKey(environ.Keys, p, key) {
      KindAfterMeaning(entries, p);
      var last := LastKeyStays(keys, environ, p);
    }
    forall p ensures KindIn(contents, p) == Mapping <==> p == [] || exists key :: key in environ && IsBelow(p, key) {
      KindAfterMeaning(entries, p);
      if key :| key in environ && IsBelow(p, key) {
        assert Entry(VariablePath(key).value, environ[key]) in entries;
      }
    }
  }
}
