/** The nested mapping that environment variables are assigned into, built in place (core/settings.py). */
module NestedMappings {
  import opened Wrappers
  import opened SettingsLayers

  datatype Child = Text(text: string) | Nested(node: Node)

  /** One mutable mapping of the tree under construction. */
  class Node {
    var children: map<string, Child>

    constructor ()
      ensures children == map[]
    {
      children := map[];
    }
  }

  function Parent(path: Path): Path
    requires path != []
  {
    path[..|path| - 1]
  }

  function LastPart(path: Path): string
    requires path != []
  {
    path[|path| - 1]
  }

  ghost predicate ProperPrefix(p: Path, q: Path) {
    |p| < |q| && p == q[..|p|]
  }

  /** The contents of every mapping, by path. */
  type Contents = map<Path, map<string, Child>>

  ghost function ChildAt(contents: Contents, path: Path): Option<Child> {
    if path != [] && Parent(path) in contents && LastPart(path) in contents[Parent(path)] then
      Some(contents[Parent(path)][LastPart(path)])
    else None
  }

  ghost function KindIn(contents: Contents, path: Path): Kind {
    if path == [] then Mapping
    else
      match ChildAt(contents, path)
      case None => Absent
      case Some(Text(text)) => Scalar(text)
      case Some(Nested(_)) => Mapping
  }

  /** A tree: the node of each path other than the root is the nested child its parent holds there. */
  ghost predicate IsTree(root: Node, nodes: map<Path, Node>, contents: Contents) {
    && [] in nodes && nodes[[]] == root && contents.Keys == nodes.Keys
    && (forall p, q :: p in nodes && q in nodes && nodes[p] == nodes[q] ==> p == q)
    && (forall p :: p in nodes && p != [] ==> ChildAt(contents, p) == Some(Nested(nodes[p])))
    && (forall p :: ChildAt(contents, p).Some? && ChildAt(contents, p).value.Nested? ==> p in nodes)
  }

  lemma PathParts(at: Path, part: string)
    ensures at + [part] != [] && Parent(at + [part]) == at && LastPart(at + [part]) == part
    ensures forall q :: q != [] && Parent(q) == at && LastPart(q) == part ==> q == at + [part]
  {
    forall q | q != [] && Parent(q) == at && LastPart(q) == part ensures q == at + [part] {
      assert q == Parent(q) + [LastPart(q)];
    }
  }

  /** Writing one key of one mapping changes one path. */
  lemma WriteOneKey(contents: Contents, at: Path, part: string, child: Child)
    requires at in contents
    ensures var written := contents[at := contents[at][part := child]];
            forall q :: ChildAt(written, q) == if q == at + [part] then Some(child) else ChildAt(contents, q)
  {
    PathParts(at, part);
  }

  lemma AddEmpty(contents: Contents, path: Path)
    requires path !in contents
    ensures forall q :: ChildAt(contents[path := map[]], q) == ChildAt(contents, q)
  {
  }

  lemma StillInjective(nodes: map<Path, Node>, path: Path, created: Node)
    requires created !in nodes.Values
    requires forall p, q :: p in nodes && q in nodes && nodes[p] == nodes[q] ==> p == q
    ensures var nodes' := nodes[path := created];
            forall p, q :: p in nodes' && q in nodes' && nodes'[p] == nodes'[q] ==> p == q
  {
    forall p | p in nodes ensures nodes[p] != created {
      assert nodes[p] in nodes.Values;
    }
  }

  lemma AddNode(root: Node, nodes: map<Path, Node>, contents: Contents, at: Path, part: string, created: Node)
    requires IsTree(root, nodes, contents) && at in nodes && created !in nodes.Values
    requires KindIn(contents, at + [part]) == Absent
    ensures var path := at + [part];
            var contents' := contents[at := contents[at][part := Nested(created)]][path := map[]];
            && IsTree(root, nodes[path := created], contents')
            && forall p :: KindIn(contents', p) == if p == path then Mapping else KindIn(contents, p)
  {
    var path := at + [part];
    var written := contents[at := contents[at][part := Nested(created)]];
    PathParts(at, part);
    WriteOneKey(contents, at, part, Nested(created));
    assert path !in nodes;
    AddEmpty(written, path);
    StillInjective(nodes, path, created);
  }

  lemma SetText(root: Node, nodes: map<Path, Node>, contents: Contents, at: Path, part: string, value: string)
    requires IsTree(root, nodes, contents) && at in nodes && KindIn(contents, at + [part]) != Mapping
    ensures var contents' := contents[at := contents[at][part := Text(value)]];
            && IsTree(root, nodes, contents')
            && forall p :: KindIn(contents', p) == if p == at + [part] then Scalar(value) else KindIn(contents, p)
  {
    PathParts(at, part);
    WriteOneKey(contents, at, part, Text(value));
  }

  /** What is defined at a path lies below mappings only. */
  lemma {:induction false} DefinedBelowMappings(root: Node, nodes: map<Path, Node>, contents: Contents, path: Path,
                                                p: Path)
    requires IsTree(root, nodes, contents) && KindIn(contents, path) != Absent && ProperPrefix(p, path)
    ensures KindIn(contents, p) == Mapping && p in nodes
    decreases |path|
  {
    var parent := Parent(path);
    assert parent in nodes;
    if p != parent {
      assert ProperPrefix(p, parent) by { assert path[..|p|] == parent[..|p|]; }
      assert KindIn(contents, parent) == Mapping;
      DefinedBelowMappings(root, nodes, contents, parent, p);
    }
  }

  /** The mutable nested mapping. */
  class NestedMapping {
    const root: Node
    ghost var nodes: map<Path, Node>

    ghost function Snapshot(): Contents
      reads this, nodes.Values
    {
      map p | p in nodes :: nodes[p].children
    }

    ghost predicate Valid()
      reads this, nodes.Values
    {
      IsTree(root, nodes, Snapshot())
    }

    /** What the tree holds at a path. */
    ghost function KindAt(path: Path): Kind
      reads this, nodes.Values
    {
      KindIn(Snapshot(), path)
    }

    constructor ()
      ensures Valid() && fresh(nodes.Values)
      ensures forall p :: KindAt(p) == if p == [] then Mapping else Absent
    {
      var node := new Node();
      root := node;
      nodes := map[[] := node];
    }

    method CreateNested(ghost at: Path, cursor: Node, part: string) returns (created: Node)
      requires Valid() && at in nodes && nodes[at] == cursor && KindAt(at + [part]) == Absent
      modifies this`nodes, cursor
      ensures Valid() && old(nodes.Keys) <= nodes.Keys && fresh(nodes.Values - old(nodes.Values))
      ensures at + [part] in nodes && nodes[at + [part]] == created
      ensures forall p :: KindAt(p) == if p == at + [part] then Mapping else old(KindAt(p))
    {
      hide IsTree, ChildAt, KindIn;
      ghost var path, before, nodes0 := at + [part], Snapshot(), nodes;
      created := new Node();
      cursor.children := cursor.children[part := Nested(created)];
      nodes := nodes[path := created];
      ghost var after := before[at := before[at][part := Nested(created)]][path := map[]];
      assert path !in nodes0 by { NotBelow(root, nodes0, before, path); }
      assert Snapshot() == after by {
        InjectiveNodes(root, nodes0, before);
        assert Snapshot().Keys == after.Keys;
      }
      AddNode(root, nodes0, before, at, part, created);
    }

    /** One step of the cursor: the mapping under the next part, created when absent. */
    method Descend(ghost at: Path, cursor: Node, part: string) returns (next: Option<Node>)
      requires Valid() && at in nodes && nodes[at] == cursor
      modifies this`nodes, cursor
      ensures Valid() && old(nodes.Keys) <= nodes.Keys && fresh(nodes.Values - old(nodes.Values))
      ensures next.None? <==> old(KindAt(at + [part])).Scalar?
      ensures next.None? ==> forall p :: KindAt(p) == old(KindAt(p))
      ensures next.Some? ==> at + [part] in nodes && nodes[at + [part]] == next.value
      ensures next.Some? ==> forall p :: KindAt(p) == if p == at + [part] then Mapping else old(KindAt(p))
    {
      hide IsTree, ChildAt, KindIn;
      ghost var path, before := at + [part], Snapshot();
      ChildLookup(before, at, part);
      assert before[at] == cursor.children;
      if part !in cursor.children {
        var created := CreateNested(at, cursor, part);
        return Some(created);
      }
      match cursor.children[part] {
        case Text(_) => return None;
        case Nested(node) =>
          NestedIsNode(root, nodes, before, path);
          return Some(node);
      }
    }

    /** cursor[leaf] = value, refused where a mapping is. */
    method SetLeaf(ghost at: Path, cursor: Node, leaf: string, value: string) returns (ok: bool)
      requires Valid() && at in nodes && nodes[at] == cursor
      modifies cursor
      ensures Valid()
      ensures ok <==> old(KindAt(at + [leaf])) != Mapping
      ensures !ok ==> forall p :: KindAt(p) == old(KindAt(p))
      ensures ok ==> forall p :: KindAt(p) == if p == at + [leaf] then Scalar(value) else old(KindAt(p))
    {
      hide IsTree, ChildAt, KindIn;
      ghost var before := Snapshot();
      ChildLookup(before, at, leaf);
      assert before[at] == cursor.children;
      if leaf in cursor.children && cursor.children[leaf].Nested? {
        return false;
      }
      SetText(root, nodes, before, at, leaf, value);
      InjectiveNodes(root, nodes, before);
      cursor.children := cursor.children[leaf := Text(value)];
      assert Snapshot() == before[at := before[at][leaf := Text(value)]];
      return true;
    }
  }

  lemma ChildLookup(contents: Contents, at: Path, part: string)
    requires at in contents
    ensures ChildAt(contents, at + [part]) == if part in contents[at] then Some(contents[at][part]) else None
    ensures KindIn(contents, at + [part]) == if part !in contents[at] then Absent
                                             else if contents[at][part].Text? then Scalar(contents[at][part].text)
                                             else Mapping
  {
    PathParts(at, part);
  }

  lemma NotBelow(root: Node, nodes: map<Path, Node>, contents: Contents, path: Path)
    requires IsTree(root, nodes, contents) && KindIn(contents, path) == Absent
    ensures path !in nodes && ChildAt(contents, path).None?
  {
  }

  lemma NestedIsNode(root: Node, nodes: map<Path, Node>, contents: Contents, path: Path)
    requires IsTree(root, nodes, contents) && path != []
    requires ChildAt(contents, path).Some? && ChildAt(contents, path).value.Nested?
    ensures path in nodes && nodes[path] == ChildAt(contents, path).value.node
  {
  }

  lemma InjectiveNodes(root: Node, nodes: map<Path, Node>, contents: Contents)
    requires IsTree(root, nodes, contents)
    ensures forall p, q :: p in nodes && q in nodes && nodes[p] == nodes[q] ==> p == q
    ensures contents.Keys == nodes.Keys
  {
  }
}
