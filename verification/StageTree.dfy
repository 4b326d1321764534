/**
 The inventory of a staged tree (native_runtime/cpp/stage_provenance.cc).
 */
module StageTree {
  import opened Primitives
  import opened SortedMap
  import opened Text

  /** What a directory can hold; Other is a device, a socket or the like. */
  datatype Node = File(bytes: string) | Link(target: string) | Directory(children: Tree) | Other

  type Tree = map<string, Node>

  /** A StageProvenanceEntry without its path. */
  datatype Info = Info(kind: string, length: int, sha256: string, target: string)

  /** The name of the marker, which is not listed at the root. */
  const MARKER := ".desktop_updater_stage_provenance.json"

  type Digest = string -> string

  //
  // Names and paths
  //

  /** What every file system guarantees of the names it lists, apart from "." and "..". */
  predicate ValidName(name: string) { name != "" && name != "." && name != ".." && '/' !in name }

  ghost predicate ValidNames(tree: Tree)
    decreases Directory(tree)
  {
    forall n <- tree :: ValidName(n) && (tree[n].Directory? ==> ValidNames(tree[n].children))
  }

  function ChildPath(relative: string, name: string): string
  {
    if relative == "" then name else relative + "/" + name
  }

  /** The path of a node that is reached from `relative` through these names. */
  function PathIn(relative: string, names: seq<string>): string
    requires names != []
  {
    ChildPath(relative, Join(names, '/'))
  }

  predicate PlainSegment(s: string) { s != "" && s != "." && s != ".." }

  /** ValidateRelative does not throw. */
  predicate ValidRelative(t: string)
  {
    && t != "" && t[0] != '/' && t[|t| - 1] != '/' && '\\' !in t
    && !IsDrivePrefixed(t)
    && forall i :: 0 <= i < |Split(t, '/')| ==> PlainSegment(Split(t, '/')[i])
  }

  /** Segments as they may stand between slashes. */
  ghost predicate AreSegments(parts: seq<string>)
  {
    parts != [] && forall i :: 0 <= i < |parts| ==>
      parts[i] != "" && parts[i] != "." && parts[i] != ".." && '/' !in parts[i]
  }

  /** Exactly these paths are valid: segments joined by slashes, none of them empty or a dot or two,
      without a backslash and without a drive letter in front. */
  lemma ValidRelativeExactly(t: string)
    ensures ValidRelative(t) <==>
            && '\\' !in t && !(|t| >= 2 && IsAlpha(t[0]) && t[1] == ':')
            && exists parts :: AreSegments(parts) && t == Join(parts, '/')
  {
    hide Split, Join;
    if ValidRelative(t) {
      SplitJoins(t, '/');
      var parts := Split(t, '/');
      assert forall i :: 0 <= i < |parts| ==> PlainSegment(parts[i]);
      assert AreSegments(parts);
    }
    if parts :| AreSegments(parts) && t == Join(parts, '/') {
      JoinSplits(parts, '/');
      JoinEnds(parts);
    }
  }

  lemma {:induction false} JoinEnds(parts: seq<string>)
    requires AreSegments(parts)
    ensures var t := Join(parts, '/'); t != "" && t[0] != '/' && t[|t| - 1] != '/'
  {
    if |parts| > 1 {
      assert AreSegments(parts[1..]);
      JoinEnds(parts[1..]);
    }
  }

  method ValidateRelative(value: string) returns (ok: bool)
    ensures ok == ValidRelative(value)
  {
    hide SplitFrom;
    if value == "" || value[0] == '/' || value[|value| - 1] == '/' || '\\' in value
       || IsDrivePrefixed(value) {
      return false;
    }
    var start := 0;
    ghost var done: seq<string> := [];
    while start <= |value|
      invariant start <= |value| && Split(value, '/') == done + SplitFrom(value, '/', start)
      invariant forall i :: 0 <= i < |done| ==> PlainSegment(done[i])
      decreases |value| - start
    {
      var slash := IndexOf(value, '/', start);
      var segment := if slash == None then value[start..] else value[start..slash.value];
      SplitUnfolds(value, '/', start);
      assert Split(value, '/')[|done|] == segment;
      if segment == "" || segment == "." || segment == ".." { return false; }
      done := done + [segment];
      if slash == None {
        assert Split(value, '/') == done;
        return true;
      }
      start := slash.value + 1;
    }
  }

  //
  // Specification of the inventory
  //

  /** The node that is reached through these names. */
  function Lookup(tree: Tree, names: seq<string>): Option<Node>
    decreases |names|
  {
    if names == [] || names[0] !in tree then None
    else if |names| == 1 then Some(tree[names[0]])
    else if tree[names[0]].Directory? then Lookup(tree[names[0]].children, names[1..])
    else None
  }

  function InfoOf(n: Node, sha256: Digest): Info
  {
    match n
    case File(bytes) => Info("file", |bytes|, sha256(bytes), "")
    case Link(target) => Info("symlink", 0, "", target)
    case Directory(_) => Info("directory", 0, "", "")
    case Other => Info("", 0, "", "")
  }

  /** What the inventory says about a path. */
  function InfoAt(tree: Tree, path: string, sha256: Digest): Option<Info>
  {
    match Lookup(tree, Split(path, '/'))
    case None => None
    case Some(n) => Some(InfoOf(n, sha256))
  }

  /** The entries that can be listed: no special files, and links that stay inside. */
  ghost predicate Stageable(tree: Tree)
    decreases Directory(tree), 0
  {
    forall n <- tree :: NodeStageable(tree[n])
  }

  ghost predicate NodeStageable(n: Node)
    decreases n, 1
  {
    match n
    case File(_) => true
    case Link(target) => ValidRelative(target)
    case Directory(children) => Stageable(children)
    case Other => false
  }

  /** The inventory of a tree: sorted by path, and with an entry for each node and no other. */
  ghost predicate IsInventory(inventory: seq<Entry<Info>>, tree: Tree, sha256: Digest)
  {
    Sorted(inventory) && forall p :: Find(inventory, p) == InfoAt(tree, p, sha256)
  }

  /** Everything but the marker at the root. */
  function Visible(tree: Tree, relative: string): Tree
  {
    if relative == "" then tree - {MARKER} else tree
  }

  //
  // The walk over the tree
  //

  ghost predicate Present(tree: Tree, names: seq<string>) { Lookup(tree, names).Some? }

  /** The nodes of a tree in some order, each once. */
  ghost predicate Enumerates(paths: seq<seq<string>>, tree: Tree)
  {
    && (forall i :: 0 <= i < |paths| ==> paths[i] != [] && Present(tree, paths[i]))
    && (forall i, j :: 0 <= i < j < |paths| ==> paths[i] != paths[j])
    && (forall p :: Present(tree, p) ==> p in paths)
  }

  function EntryAt(tree: Tree, relative: string, names: seq<string>, sha256: Digest): Entry<Info>
    requires names != [] && Lookup(tree, names).Some?
  {
    Entry(PathIn(relative, names), InfoOf(Lookup(tree, names).value, sha256))
  }

  /** The entries for these nodes, in this order. */
  ghost predicate EntriesFor(
    entries: seq<Entry<Info>>, tree: Tree, relative: string, paths: seq<seq<string>>, sha256: Digest)
  {
    && |entries| == |paths|
    && forall i :: 0 <= i < |paths| ==>
         && paths[i] != [] && Present(tree, paths[i])
         && entries[i] == EntryAt(tree, relative, paths[i], sha256)
  }

  function Under(name: string, paths: seq<seq<string>>): (r: seq<seq<string>>)
    ensures |r| == |paths| && forall i :: 0 <= i < |paths| ==> r[i] == [name] + paths[i]
  {
    seq(|paths|, i requires 0 <= i < |paths| => [name] + paths[i])
  }

  /**
   AddInventory.  The names of a directory come in any order; `remaining` are those that
   readdir has not returned yet.  None is a throw.
   */
  method AddInventory(tree: Tree, relative: string, sha256: Digest, known: seq<Entry<Info>>)
    returns (r: Option<seq<Entry<Info>>>, ghost paths: seq<seq<string>>)
    requires ValidNames(tree)
    ensures r.Some? <==> Stageable(Visible(tree, relative))
    ensures r.Some? ==> Enumerates(paths, Visible(tree, relative))
    ensures r.Some? ==> |known| <= |r.value| && r.value[..|known|] == known
    ensures r.Some? ==> EntriesFor(r.value[|known|..], Visible(tree, relative), relative, paths, sha256)
    decreases Directory(tree)
  {
    hide Enumerates, EntriesFor, ValidRelative, Visible, Stageable, ValidNames, ChildPath, Part;
    paths := [];
    var added: seq<Entry<Info>> := [];
    var remaining := tree.Keys;
    ghost var part: Tree := map[];
    EnumeratesNothing(relative, sha256);
    PartStarts(tree, relative);
    while remaining != {}
      invariant remaining <= tree.Keys
      invariant part == Part(tree, relative, remaining)
      invariant Stageable(part) && Enumerates(paths, part)
      invariant EntriesFor(added, part, relative, paths, sha256)
      decreases |remaining|
    {
      var name :| name in remaining;
      PartGrows(tree, relative, remaining, name);
      remaining := remaining - {name};
      var child := ChildPath(relative, name);
      if child == MARKER { continue; }
      var node := tree[name];
      match node {
        case Directory(children) =>
          ghost var sub;
          var below;
          below, sub := AddInventory(children, child, sha256, [Entry(child, Info("directory", 0, "", ""))]);
          NotRoot(relative, name, children);
          if below == None {
            Unstageable(tree, relative, name);
            return None, paths;
          }
          StepDirectory(part, relative, paths, added, name, node, sub, below.value, sha256);
          paths := paths + [[name]] + Under(name, sub);
          added := added + below.value;
        case File(bytes) =>
          StepLeaf(part, relative, paths, added, name, node, sha256);
          paths := paths + [[name]];
          added := added + [Entry(child, Info("file", |bytes|, sha256(bytes), ""))];
        case Link(target) =>
          var valid := ValidateRelative(target);
          if !valid {
            Unstageable(tree, relative, name);
            return None, paths;
          }
          StepLeaf(part, relative, paths, added, name, node, sha256);
          paths := paths + [[name]];
          added := added + [Entry(child, Info("symlink", 0, "", target))];
        case Other =>
          Unstageable(tree, relative, name);
          return None, paths;
      }
      part := part[name := node];
    }
    PartDone(tree, relative);
    assert (known + added)[|known|..] == added;
    return Some(known + added), paths;
  }

  /** The part of a directory that has been listed. */
  ghost function Part(tree: Tree, relative: string, remaining: set<string>): Tree
  {
    Visible(tree, relative) - remaining
  }

  lemma EnumeratesNothing(relative: string, sha256: Digest)
    ensures Stageable(map[])
    ensures Enumerates([], map[]) && EntriesFor([], map[], relative, [], sha256)
  {
  }

  lemma PartGrows(tree: Tree, relative: string, remaining: set<string>, name: string)
    requires name in remaining && name in tree && ValidNames(tree)
    ensures Part(tree, relative, remaining - {name}) ==
            if ChildPath(relative, name) == MARKER then Part(tree, relative, remaining)
            else Part(tree, relative, remaining)[name := tree[name]]
    ensures name !in Part(tree, relative, remaining) && ValidName(name)
    ensures tree[name].Directory? ==> ValidNames(tree[name].children)
  {
    MarkerIsAtRoot(relative, name);
    var before, after := Part(tree, relative, remaining), Part(tree, relative, remaining - {name});
    if ChildPath(relative, name) == MARKER {
      assert after == before;
    } else {
      assert after == before[name := tree[name]];
    }
  }

  lemma MarkerIsAtRoot(relative: string, name: string)
    ensures ChildPath(relative, name) == MARKER <==> relative == "" && name == MARKER
  {
    assert '/' !in MARKER;
    assert relative != "" ==> ChildPath(relative, name)[|relative|] == '/';
  }

  lemma PartStarts(tree: Tree, relative: string)
    ensures Part(tree, relative, tree.Keys) == map[]
  {
  }

  lemma PartDone(tree: Tree, relative: string)
    ensures Part(tree, relative, {}) == Visible(tree, relative)
  {
  }

  lemma NotRoot(relative: string, name: string, children: Tree)
    requires ValidName(name)
    ensures ChildPath(relative, name) != "" && Visible(children, ChildPath(relative, name)) == children
  {
  }

  lemma Unstageable(tree: Tree, relative: string, name: string)
    requires name in tree && ChildPath(relative, name) != MARKER && !NodeStageable(tree[name])
    ensures !Stageable(Visible(tree, relative))
  {
    MarkerIsAtRoot(relative, name);
    var shown := Visible(tree, relative);
    assert name in shown && shown[name] == tree[name];
  }

  //
  // Steps of the walk
  //

  lemma LookupGrows(part: Tree, name: string, node: Node, names: seq<string>)
    requires name !in part
    ensures Lookup(part[name := node], names) ==
            if names == [] || names[0] != name then Lookup(part, names)
            else if |names| == 1 then Some(node)
            else if node.Directory? then Lookup(node.children, names[1..])
            else None
  {
  }

  lemma StageableGrows(part: Tree, name: string, node: Node)
    requires Stageable(part) && NodeStageable(node) && name !in part
    ensures Stageable(part[name := node])
  {
  }

  lemma StepLeaf(
    part: Tree, relative: string, paths: seq<seq<string>>, added: seq<Entry<Info>>, name: string, node: Node, sha256: Digest)
    requires name !in part && Stageable(part) && NodeStageable(node) && !node.Directory?
    requires Enumerates(paths, part) && EntriesFor(added, part, relative, paths, sha256)
    ensures Stageable(part[name := node]) && Enumerates(paths + [[name]], part[name := node])
    ensures EntriesFor(added + [Entry(ChildPath(relative, name), InfoOf(node, sha256))],
                       part[name := node], relative, paths + [[name]], sha256)
  {
    hide Stageable, NodeStageable, Enumerates, EntriesFor;
    StageableGrows(part, name, node);
    EnumeratesMore(part, paths, name, node, []);
    EntriesMore(part, relative, paths, added, name, node, [], [Entry(ChildPath(relative, name), InfoOf(node, sha256))], sha256);
    assert paths + [[name]] + Under(name, []) == paths + [[name]];
  }

  lemma StepDirectory(
    part: Tree, relative: string, paths: seq<seq<string>>, added: seq<Entry<Info>>, name: string, node: Node,
    sub: seq<seq<string>>, below: seq<Entry<Info>>, sha256: Digest)
    requires name !in part && Stageable(part) && node.Directory? && Stageable(node.children)
    requires Enumerates(paths, part) && EntriesFor(added, part, relative, paths, sha256) && ValidName(name)
    requires Enumerates(sub, node.children)
    requires |below| >= 1 && below[..1] == [Entry(ChildPath(relative, name), InfoOf(node, sha256))]
    requires EntriesFor(below[1..], node.children, ChildPath(relative, name), sub, sha256)
    ensures Stageable(part[name := node]) && Enumerates(paths + [[name]] + Under(name, sub), part[name := node])
    ensures EntriesFor(added + below, part[name := node], relative, paths + [[name]] + Under(name, sub), sha256)
  {
    hide Stageable, Enumerates, EntriesFor;
    StageableGrows(part, name, node);
    EnumeratesMore(part, paths, name, node, sub);
    EntriesBelow(relative, name, node, sub, below, sha256);
    EntriesMore(part, relative, paths, added, name, node, sub, below, sha256);
  }

  lemma EnumeratesMore(part: Tree, paths: seq<seq<string>>, name: string, node: Node, sub: seq<seq<string>>)
    requires name !in part && Enumerates(paths, part)
    requires if node.Directory? then Enumerates(sub, node.children) else sub == []
    ensures Enumerates(paths + [[name]] + Under(name, sub), part[name := node])
  {
    hide Lookup;
    var whole, all := part[name := node], paths + [[name]] + Under(name, sub);
    forall i | 0 <= i < |all|
      ensures all[i] != [] && Present(whole, all[i])
      ensures i < |paths| <==> all[i][0] != name
    {
      LookupGrows(part, name, node, all[i]);
      if i < |paths| {
        FirstIsPresent(part, paths[i]);
      } else if i > |paths| {
        var q := sub[i - |paths| - 1];
        assert all[i] == [name] + q && all[i][1..] == q;
      }
    }
    forall p | Present(whole, p)
      ensures p in all
    {
      LookupGrows(part, name, node, p);
      if p == [] || p[0] != name {
        assert Present(part, p);
      } else if |p| == 1 {
        assert p == [name] == all[|paths|];
      } else {
        assert Present(node.children, p[1..]);
        var i :| 0 <= i < |sub| && sub[i] == p[1..];
        assert p == [name] + p[1..] == all[|paths| + 1 + i];
      }
    }
    forall i, j | 0 <= i < j < |all|
      ensures all[i] != all[j]
    {
      if i > |paths| { assert sub[i - |paths| - 1] == all[i][1..] && sub[j - |paths| - 1] == all[j][1..]; }
    }
  }

  lemma FirstIsPresent(tree: Tree, names: seq<string>)
    requires Present(tree, names)
    ensures names != [] && names[0] in tree
  {
  }

  lemma PathInDeeper(relative: string, name: string, names: seq<string>)
    requires ValidName(name) && names != []
    ensures PathIn(relative, [name] + names) == PathIn(ChildPath(relative, name), names)
  {
    assert ([name] + names)[1..] == names;
    if relative != "" {
      assert relative + "/" + (name + ['/'] + Join(names, '/')) == relative + "/" + name + "/" + Join(names, '/');
    }
  }

  /** The entries of a directory and of everything below it. */
  lemma EntriesBelow(
    relative: string, name: string, node: Node, sub: seq<seq<string>>, below: seq<Entry<Info>>, sha256: Digest)
    requires node.Directory? && ValidName(name)
    requires |below| >= 1 && below[..1] == [Entry(ChildPath(relative, name), InfoOf(node, sha256))]
    requires EntriesFor(below[1..], node.children, ChildPath(relative, name), sub, sha256)
    ensures EntriesFor(below, map[name := node], relative, [[name]] + Under(name, sub), sha256)
  {
    hide Lookup, InfoOf, PathIn;
    var single, all := map[name := node], [[name]] + Under(name, sub);
    forall i | 0 <= i < |all|
      ensures all[i] != [] && Present(single, all[i]) && below[i] == EntryAt(single, relative, all[i], sha256)
    {
      LookupGrows(map[], name, node, all[i]);
      assert single == map[][name := node];
      if i == 0 {
        assert PathIn(relative, [name]) == ChildPath(relative, name) by { OneName(relative, name); }
        assert below[0] == below[..1][0];
      } else {
        var q := sub[i - 1];
        assert all[i] == [name] + q && all[i][1..] == q;
        PathInDeeper(relative, name, q);
        assert below[i] == below[1..][i - 1];
      }
    }
  }

  lemma OneName(relative: string, name: string)
    ensures PathIn(relative, [name]) == ChildPath(relative, name)
  {
  }

  lemma EntriesMore(
    part: Tree, relative: string, paths: seq<seq<string>>, added: seq<Entry<Info>>, name: string, node: Node,
    sub: seq<seq<string>>, below: seq<Entry<Info>>, sha256: Digest)
    requires name !in part && EntriesFor(added, part, relative, paths, sha256)
    requires node.Directory? ==> EntriesFor(below, map[name := node], relative, [[name]] + Under(name, sub), sha256)
    requires !node.Directory? ==> sub == [] && below == [Entry(ChildPath(relative, name), InfoOf(node, sha256))]
    ensures EntriesFor(added + below, part[name := node], relative, paths + [[name]] + Under(name, sub), sha256)
  {
    hide Lookup, InfoOf, PathIn;
    var whole, all, entries := part[name := node], paths + [[name]] + Under(name, sub), added + below;
    var more := [[name]] + Under(name, sub);
    forall i | 0 <= i < |all|
      ensures all[i] != [] && Present(whole, all[i]) && entries[i] == EntryAt(whole, relative, all[i], sha256)
    {
      LookupGrows(part, name, node, all[i]);
      LookupGrows(map[], name, node, all[i]);
      if i < |paths| {
        FirstIsPresent(part, paths[i]);
      } else {
        assert all[i] == more[i - |paths|] && entries[i] == below[i - |paths|];
        OneName(relative, name);
        assert map[][name := node] == map[name := node];
      }
    }
  }

  //
  // The sorted inventory
  //

  /** std::sort by path, of entries with different paths. */
  function SortedByPath(entries: seq<Entry<Info>>): seq<Entry<Info>>
  {
    if entries == [] then []
    else
      var last := entries[|entries| - 1];
      Emplace(SortedByPath(entries[..|entries| - 1]), last.key, last.value)
  }

  lemma {:induction false} SortedFind(entries: seq<Entry<Info>>, key: string)
    requires forall i, j :: 0 <= i < j < |entries| ==> entries[i].key != entries[j].key
    ensures Sorted(SortedByPath(entries))
    ensures Find(SortedByPath(entries), key).Some? ==> exists i :: 0 <= i < |entries| && entries[i].key == key
    ensures forall i :: 0 <= i < |entries| && entries[i].key == key ==> Find(SortedByPath(entries), key) == Some(entries[i].value)
    decreases |entries|
  {
    hide Less, Find, Emplace, LowerBound;
    if entries == [] {
      FindSound(SortedByPath(entries), key);
    } else {
      var front, last := entries[..|entries| - 1], entries[|entries| - 1];
      SortedFind(front, key);
      SortedFind(front, last.key);
      EmplaceSorted(SortedByPath(front), last.key, last.value);
      EmplaceFind(SortedByPath(front), last.key, last.value, key);
      assert forall i :: 0 <= i < |front| ==> entries[i] == front[i];
    }
  }

  lemma {:induction false} PresentNames(tree: Tree, names: seq<string>)
    requires ValidNames(tree) && Present(tree, names)
    ensures names != [] && Free(names, '/')
    decreases |names|
  {
    if |names| > 1 {
      PresentNames(tree[names[0]].children, names[1..]);
      assert forall i :: 0 < i < |names| ==> names[i] == names[1..][i - 1];
    }
  }

  /** The entries of a walk, sorted, are the inventory. */
  lemma WalkGivesInventory(entries: seq<Entry<Info>>, tree: Tree, paths: seq<seq<string>>, sha256: Digest)
    requires ValidNames(tree) && Enumerates(paths, tree) && EntriesFor(entries, tree, "", paths, sha256)
    ensures IsInventory(SortedByPath(entries), tree, sha256)
  {
    hide SortedByPath, Lookup, Split, Join, InfoOf, ValidNames;
    forall i | 0 <= i < |paths|
      ensures Split(entries[i].key, '/') == paths[i]
    {
      PresentNames(tree, paths[i]);
      JoinSplits(paths[i], '/');
    }
    assert forall i, j :: 0 <= i < j < |entries| ==> entries[i].key != entries[j].key;
    SortedFind(entries, "");
    forall p
      ensures Find(SortedByPath(entries), p) == InfoAt(tree, p, sha256)
    {
      WalkFinds(entries, tree, paths, sha256, p);
    }
  }

  lemma WalkFinds(entries: seq<Entry<Info>>, tree: Tree, paths: seq<seq<string>>, sha256: Digest, p: string)
    requires Enumerates(paths, tree) && EntriesFor(entries, tree, "", paths, sha256)
    requires forall i :: 0 <= i < |paths| ==> Split(entries[i].key, '/') == paths[i]
    requires forall i, j :: 0 <= i < j < |entries| ==> entries[i].key != entries[j].key
    ensures Find(SortedByPath(entries), p) == InfoAt(tree, p, sha256)
  {
    hide SortedByPath, Lookup, Split, Join, InfoOf, Find;
    SortedFind(entries, p);
    var names := Split(p, '/');
    assert forall i :: 0 <= i < |paths| ==> Present(tree, paths[i]);
    if Present(tree, names) {
      var i :| 0 <= i < |paths| && paths[i] == names;
      SplitJoins(p, '/');
      assert entries[i] == EntryAt(tree, "", names, sha256) && entries[i].key == p;
    }
  }

  /** Inventory; None is a throw. */
  method Inventory(root: Tree, sha256: Digest) returns (r: Option<seq<Entry<Info>>>)
    requires ValidNames(root)
    ensures r.Some? <==> Stageable(root - {MARKER})
    ensures r.Some? ==> IsInventory(r.value, root - {MARKER}, sha256)
  {
    hide Enumerates, EntriesFor, SortedByPath, IsInventory, Stageable, ValidNames;
    ghost var paths;
    var entries;
    entries, paths := AddInventory(root, "", sha256, []);
    if entries == None { return None; }
    assert entries.value[0..] == entries.value;
    FewerNames(root);
    WalkGivesInventory(entries.value, root - {MARKER}, paths, sha256);
    return Some(SortedByPath(entries.value));
  }

  lemma FewerNames(tree: Tree)
    requires ValidNames(tree)
    ensures ValidNames(tree - {MARKER})
  {
  }

  /** A tree has only one inventory. */
  lemma InventoryUnique(a: seq<Entry<Info>>, b: seq<Entry<Info>>, tree: Tree, sha256: Digest)
    requires IsInventory(a, tree, sha256) && IsInventory(b, tree, sha256)
    ensures a == b
  {
    hide Find;
    assert forall k :: Find(a, k) == InfoAt(tree, k, sha256) && Find(b, k) == InfoAt(tree, k, sha256);
    Extensional(a, b);
  }

  //
  // The inventory pins down the tree
  //

  /** The same tree, up to files of the same length and digest. */
  ghost predicate Alike(a: Tree, b: Tree, sha256: Digest)
    decreases Directory(a), 0
  {
    a.Keys == b.Keys && forall n <- a :: n in b && AlikeNodes(a[n], b[n], sha256)
  }

  ghost predicate AlikeNodes(a: Node, b: Node, sha256: Digest)
    decreases a, 1
  {
    match (a, b)
    case (Directory(c), Directory(d)) => Alike(c, d, sha256)
    case (File(x), File(y)) => |x| == |y| && sha256(x) == sha256(y)
    case (Link(x), Link(y)) => x == y
    case (Other, Other) => true
    case _ => false
  }

  function InfoThrough(tree: Tree, names: seq<string>, sha256: Digest): Option<Info>
  {
    match Lookup(tree, names)
    case None => None
    case Some(n) => Some(InfoOf(n, sha256))
  }

  lemma KindsDiffer(a: Node, b: Node, sha256: Digest)
    requires InfoOf(a, sha256) == InfoOf(b, sha256)
    ensures a.Directory? == b.Directory?
    ensures !a.Directory? ==> AlikeNodes(a, b, sha256)
  {
    var x, y := InfoOf(a, sha256), InfoOf(b, sha256);
    assert x.kind == y.kind && x.length == y.length && x.sha256 == y.sha256 && x.target == y.target;
    assert "file"[0] != "symlink"[0] && "file"[0] != "directory"[0] && "symlink"[0] != "directory"[0];
  }

  lemma {:induction false} SameInfoMeansAlike(a: Tree, b: Tree, sha256: Digest)
    requires forall names :: InfoThrough(a, names, sha256) == InfoThrough(b, names, sha256)
    ensures Alike(a, b, sha256)
    decreases Directory(a)
  {
    hide InfoOf;
    forall n
      ensures n in a <==> n in b
    {
      assert InfoThrough(a, [n], sha256) == InfoThrough(b, [n], sha256);
    }
    forall n | n in a
      ensures n in b && AlikeNodes(a[n], b[n], sha256)
    {
      assert InfoThrough(a, [n], sha256) == InfoThrough(b, [n], sha256);
      KindsDiffer(a[n], b[n], sha256);
      if a[n].Directory? {
        var c, d := a[n].children, b[n].children;
        forall names
          ensures InfoThrough(c, names, sha256) == InfoThrough(d, names, sha256)
        {
          if names != [] {
            assert ([n] + names)[1..] == names;
            assert InfoThrough(a, [n] + names, sha256) == InfoThrough(b, [n] + names, sha256);
          }
        }
        assert Directory(c) == a[n];
        SameInfoMeansAlike(c, d, sha256);
      }
    }
  }

  lemma {:induction false} AlikeMeansSameInfo(a: Tree, b: Tree, sha256: Digest, names: seq<string>)
    requires Alike(a, b, sha256)
    ensures InfoThrough(a, names, sha256) == InfoThrough(b, names, sha256)
    decreases |names|
  {
    if names != [] && names[0] in a {
      assert AlikeNodes(a[names[0]], b[names[0]], sha256);
      if |names| > 1 && a[names[0]].Directory? {
        AlikeMeansSameInfo(a[names[0]].children, b[names[0]].children, sha256, names[1..]);
      }
    }
  }

  lemma InfoThroughPath(tree: Tree, names: seq<string>, sha256: Digest)
    requires ValidNames(tree)
    ensures InfoThrough(tree, names, sha256) ==
            if names != [] && Free(names, '/') then InfoAt(tree, Join(names, '/'), sha256) else None
  {
    hide Lookup, Split, Join, InfoOf, ValidNames;
    if Present(tree, names) { PresentNames(tree, names); }
    if names != [] && Free(names, '/') { JoinSplits(names, '/'); }
  }

  /** Two trees have the same inventory exactly when they are the same up to digests. */
  lemma InventoryPinsTree(inventory: seq<Entry<Info>>, a: Tree, b: Tree, sha256: Digest)
    requires ValidNames(a) && ValidNames(b) && IsInventory(inventory, a, sha256)
    ensures IsInventory(inventory, b, sha256) <==> Alike(a, b, sha256)
  {
    hide Find, InfoThrough, InfoAt, Join, ValidNames, Alike;
    if IsInventory(inventory, b, sha256) {
      forall names
        ensures InfoThrough(a, names, sha256) == InfoThrough(b, names, sha256)
      {
        InfoThroughPath(a, names, sha256);
        InfoThroughPath(b, names, sha256);
        if names != [] {
          var p := Join(names, '/');
          assert Find(inventory, p) == InfoAt(a, p, sha256) == InfoAt(b, p, sha256);
        }
      }
      SameInfoMeansAlike(a, b, sha256);
    }
    if Alike(a, b, sha256) {
      forall p
        ensures Find(inventory, p) == InfoAt(b, p, sha256)
      {
        AlikeMeansSameInfo(a, b, sha256, Split(p, '/'));
        InfoAtThrough(a, p, sha256);
        InfoAtThrough(b, p, sha256);
      }
    }
  }

  lemma InfoAtThrough(tree: Tree, p: string, sha256: Digest)
    ensures InfoAt(tree, p, sha256) == InfoThrough(tree, Split(p, '/'), sha256)
  {
  }

  /** Some file of the tree has these bytes. */
  ghost predicate FileIn(tree: Tree, bytes: string)
  {
    exists names :: Lookup(tree, names) == Some(File(bytes))
  }

  /** No file of one tree collides with a different file of the other. */
  ghost predicate Separates(sha256: Digest, a: Tree, b: Tree)
  {
    forall x, y :: FileIn(a, x) && FileIn(b, y) && sha256(x) == sha256(y) ==> x == y
  }

  lemma FileBelow(tree: Tree, name: string, bytes: string)
    requires name in tree
    ensures tree[name] == File(bytes) ==> FileIn(tree, bytes)
    ensures tree[name].Directory? && FileIn(tree[name].children, bytes) ==> FileIn(tree, bytes)
  {
    if tree[name] == File(bytes) {
      assert Lookup(tree, [name]) == Some(File(bytes));
    }
    if tree[name].Directory? && FileIn(tree[name].children, bytes) {
      var names :| Lookup(tree[name].children, names) == Some(File(bytes));
      assert ([name] + names)[1..] == names;
      assert Lookup(tree, [name] + names) == Some(File(bytes));
    }
  }

  lemma SeparatesBelow(sha256: Digest, a: Tree, b: Tree, name: string)
    requires Separates(sha256, a, b) && name in a && name in b && a[name].Directory? && b[name].Directory?
    ensures Separates(sha256, a[name].children, b[name].children)
  {
    hide FileIn;
    forall x, y | FileIn(a[name].children, x) && FileIn(b[name].children, y) && sha256(x) == sha256(y)
      ensures x == y
    {
      FileBelow(a, name, x);
      FileBelow(b, name, y);
    }
  }

  lemma {:induction false} AlikeItself(a: Tree, sha256: Digest)
    ensures Alike(a, a, sha256)
    decreases Directory(a)
  {
    forall n | n in a
      ensures AlikeNodes(a[n], a[n], sha256)
    {
      if a[n].Directory? { AlikeItself(a[n].children, sha256); }
    }
  }

  lemma {:induction false} AlikeMeansEqual(a: Tree, b: Tree, sha256: Digest)
    requires Alike(a, b, sha256) && Separates(sha256, a, b)
    ensures a == b
    decreases Directory(a)
  {
    hide Separates, FileIn;
    forall n | n in a
      ensures n in b && a[n] == b[n]
    {
      assert AlikeNodes(a[n], b[n], sha256);
      if a[n].Directory? {
        SeparatesBelow(sha256, a, b, n);
        AlikeMeansEqual(a[n].children, b[n].children, sha256);
      } else if a[n].File? {
        SameFile(sha256, a, b, n);
      }
    }
  }

  lemma SameFile(sha256: Digest, a: Tree, b: Tree, name: string)
    requires Separates(sha256, a, b) && name in a && name in b && a[name].File? && b[name].File?
    requires sha256(a[name].bytes) == sha256(b[name].bytes)
    ensures a[name] == b[name]
  {
    hide FileIn;
    FileBelow(a, name, a[name].bytes);
    FileBelow(b, name, b[name].bytes);
  }

  /** Where the digest tells the files of two trees apart, alike is equal. */
  lemma AlikeExactlyEqual(a: Tree, b: Tree, sha256: Digest)
    requires Separates(sha256, a, b)
    ensures Alike(a, b, sha256) <==> a == b
  {
    hide Separates, Alike;
    if Alike(a, b, sha256) { AlikeMeansEqual(a, b, sha256); }
    if a == b { AlikeItself(a, sha256); }
  }
}
