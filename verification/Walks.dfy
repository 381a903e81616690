/** The recursive directory walk whose caller prunes it as it goes. */
module Walks {
  import opened Paths

  /** A directory entry is a file, a symbolic link or a directory. */
  datatype Node = File | Link | Dir(children: Entries)
  datatype Entries = Nil | Entry(name: string, node: Node, rest: Entries)

  type Filter = string -> bool

  /** The directories met top-down from `path`, none below an excluded one. */
  function Visit(path: string, node: Node, exclude: Filter): seq<string>
    decreases node
  {
    if !node.Dir? then [] else [path] + if exclude(path) then [] else VisitAll(path, node.children, exclude)
  }

  function VisitAll(path: string, es: Entries, exclude: Filter): seq<string>
    decreases es
  {
    match es
    case Nil => []
    case Entry(name, node, rest) => Visit(JoinPath(path, name), node, exclude) + VisitAll(path, rest, exclude)
  }

  function Walked(top: string, rec: bool, node: Node, exclude: Filter): seq<string> {
    if !rec || !node.Dir? then [top] else Visit(top, node, exclude)
  }

  function Size(node: Node): nat {
    if node.Dir? then 1 + SizeAll(node.children) else 0
  }

  function SizeAll(es: Entries): nat {
    match es
    case Nil => 0
    case Entry(_, node, rest) => Size(node) + SizeAll(rest)
  }

  /** The subdirectories of `path`, last first, as the walk pushes them. */
  function Pushed(path: string, es: Entries): seq<(string, Node)> {
    match es
    case Nil => []
    case Entry(name, node, rest) => Pushed(path, rest) + if node.Dir? then [(JoinPath(path, name), node)] else []
  }

  function VisitStack(stack: seq<(string, Node)>, exclude: Filter): seq<string> {
    if stack == [] then []
    else
      var (path, node) := stack[|stack| - 1];
      Visit(path, node, exclude) + VisitStack(stack[..|stack| - 1], exclude)
  }

  function StackSize(stack: seq<(string, Node)>): nat {
    if stack == [] then 0 else Size(stack[|stack| - 1].1) + StackSize(stack[..|stack| - 1])
  }

  lemma PushOne(base: seq<(string, Node)>, path: string, node: Node, exclude: Filter)
    ensures VisitStack(base + [(path, node)], exclude) == Visit(path, node, exclude) + VisitStack(base, exclude)
    ensures StackSize(base + [(path, node)]) == Size(node) + StackSize(base)
  {
    var all := base + [(path, node)];
    assert all[..|all| - 1] == base;
  }

  lemma {:induction false} PushVisits(base: seq<(string, Node)>, path: string, es: Entries, exclude: Filter)
    ensures VisitStack(base + Pushed(path, es), exclude) == VisitAll(path, es, exclude) + VisitStack(base, exclude)
    ensures StackSize(base + Pushed(path, es)) == SizeAll(es) + StackSize(base)
    decreases es
  {
    hide VisitStack, StackSize, JoinPath;
    match es
    case Nil => assert base + [] == base;
    case Entry(name, node, rest) =>
      PushVisits(base, path, rest, exclude);
      var below := base + Pushed(path, rest);
      if node.Dir? {
        PushOne(below, JoinPath(path, name), node, exclude);
        assert base + Pushed(path, es) == below + [(JoinPath(path, name), node)];
      } else {
        assert base + Pushed(path, es) == below;
      }
  }

  lemma WalkStep(stack: seq<(string, Node)>, root: string, dir: Node, dirs: Entries, exclude: Filter)
    requires dir.Dir? && dirs == if exclude(root) then Nil else dir.children
    ensures VisitStack(stack + [(root, dir)], exclude) == [root] + VisitStack(stack + Pushed(root, dirs), exclude)
    ensures StackSize(stack + Pushed(root, dirs)) < StackSize(stack + [(root, dir)])
  {
    hide VisitStack, StackSize, Pushed, VisitAll, SizeAll;
    PushOne(stack, root, dir, exclude);
    PushVisits(stack, root, dirs, exclude);
    NothingVisited(root, exclude);
    assert Visit(root, dir, exclude) == [root] + VisitAll(root, dirs, exclude);
  }

  /** The walk itself: `dirs` is emptied in place when the directory just met is excluded,
      before the walk descends into what is left of it. Links are never followed. */
  method WalkRec(top: string, rec: bool, node: Node, exclude: Filter) returns (paths: seq<string>)
    ensures paths == Walked(top, rec, node, exclude)
  {
    hide VisitStack, StackSize, Pushed, Visit;
    if !rec || !node.Dir? {
      return [top];
    }
    var stack := [(top, node)];
    paths := [];
    NothingStacked(exclude);
    PushOne([], top, node, exclude);
    assert [] + [(top, node)] == stack;
    while stack != []
      invariant forall i :: 0 <= i < |stack| ==> stack[i].1.Dir?
      invariant paths + VisitStack(stack, exclude) == Visit(top, node, exclude)
      decreases StackSize(stack)
    {
      var (root, dir) := stack[|stack| - 1];
      var rest := stack[..|stack| - 1];
      assert stack == rest + [(root, dir)];
      var dirs := dir.children;
      if exclude(root) {
        dirs := Nil;
      }
      WalkStep(rest, root, dir, dirs, exclude);
      PushedDirs(root, dirs);
      paths := paths + [root];
      stack := rest + Pushed(root, dirs);
    }
  }

  lemma NothingStacked(exclude: Filter)
    ensures VisitStack([], exclude) == []
  {
  }

  lemma NothingVisited(path: string, exclude: Filter)
    ensures VisitAll(path, Nil, exclude) == [] && SizeAll(Nil) == 0
  {
  }

  lemma {:induction false} PushedDirs(path: string, es: Entries)
    ensures forall i :: 0 <= i < |Pushed(path, es)| ==> Pushed(path, es)[i].1.Dir?
    decreases es
  {
    match es
    case Nil =>
    case Entry(_, _, rest) => PushedDirs(path, rest);
  }

  // ---- what the walk meets

  /** The directory `rel` components below `node` exists. */
  predicate IsDir(node: Node, rel: seq<string>) {
    node.Dir? && (rel == [] || IsDirIn(node.children, rel))
  }

  predicate IsDirIn(es: Entries, rel: seq<string>)
    requires rel != []
  {
    match es
    case Nil => false
    case Entry(name, node, rest) => (name == rel[0] && IsDir(node, rel[1..])) || IsDirIn(rest, rel)
  }

  function JoinAll(path: string, rel: seq<string>): string
    decreases |rel|
  {
    if rel == [] then path else JoinAll(JoinPath(path, rel[0]), rel[1..])
  }

  /** None of the directories strictly above `rel`, from `path` down, is excluded. */
  ghost predicate OpenAbove(path: string, rel: seq<string>, exclude: Filter) {
    forall i {:trigger rel[..i]} :: 0 <= i < |rel| ==> !exclude(JoinAll(path, rel[..i]))
  }

  ghost predicate Met(path: string, node: Node, exclude: Filter, rel: seq<string>) {
    IsDir(node, rel) && OpenAbove(path, rel, exclude)
  }

  lemma OpenBelow(path: string, name: string, rel: seq<string>, exclude: Filter)
    ensures OpenAbove(path, [name] + rel, exclude) <==>
            !exclude(path) && OpenAbove(JoinPath(path, name), rel, exclude)
  {
    var all := [name] + rel;
    forall i | 0 <= i <= |rel| ensures JoinAll(path, all[..i + 1]) == JoinAll(JoinPath(path, name), rel[..i]) {
      assert all[..i + 1][1..] == rel[..i];
    }
    if OpenAbove(path, all, exclude) {
      assert all[..0] == [];
      forall i | 0 <= i < |rel| ensures !exclude(JoinAll(JoinPath(path, name), rel[..i])) {
        assert !exclude(JoinAll(path, all[..i + 1]));
      }
    }
    if !exclude(path) && OpenAbove(JoinPath(path, name), rel, exclude) {
      forall i | 0 <= i < |all| ensures !exclude(JoinAll(path, all[..i])) {
        if i == 0 {
          assert all[..0] == [];
        } else {
          assert JoinAll(path, all[..i - 1 + 1]) == JoinAll(JoinPath(path, name), rel[..i - 1]);
        }
      }
    }
  }

  lemma {:induction false} VisitSound(path: string, node: Node, exclude: Filter, p: string) returns (rel: seq<string>)
    requires p in Visit(path, node, exclude)
    ensures Met(path, node, exclude, rel) && p == JoinAll(path, rel)
    decreases node
  {
    if p == path {
      rel := [];
    } else {
      var name, below := VisitAllSound(path, node.children, exclude, p);
      rel := [name] + below;
      OpenBelow(path, name, below, exclude);
      assert rel[1..] == below;
    }
  }

  lemma {:induction false} VisitAllSound(path: string, es: Entries, exclude: Filter, p: string)
    returns (name: string, rel: seq<string>)
    requires p in VisitAll(path, es, exclude)
    ensures IsDirIn(es, [name] + rel)
    ensures OpenAbove(JoinPath(path, name), rel, exclude) && p == JoinAll(JoinPath(path, name), rel)
    decreases es
  {
    if p in Visit(JoinPath(path, es.name), es.node, exclude) {
      name := es.name;
      rel := VisitSound(JoinPath(path, name), es.node, exclude, p);
      assert ([name] + rel)[1..] == rel;
    } else {
      name, rel := VisitAllSound(path, es.rest, exclude, p);
    }
  }

  lemma {:induction false} VisitComplete(path: string, node: Node, exclude: Filter, rel: seq<string>)
    requires Met(path, node, exclude, rel)
    ensures JoinAll(path, rel) in Visit(path, node, exclude)
    decreases node
  {
    if rel != [] {
      assert rel == [rel[0]] + rel[1..];
      OpenBelow(path, rel[0], rel[1..], exclude);
      VisitAllComplete(path, node.children, exclude, rel);
    }
  }

  lemma {:induction false} VisitAllComplete(path: string, es: Entries, exclude: Filter, rel: seq<string>)
    requires rel != [] && IsDirIn(es, rel) && OpenAbove(JoinPath(path, rel[0]), rel[1..], exclude)
    ensures JoinAll(path, rel) in VisitAll(path, es, exclude)
    decreases es
  {
    if es.name == rel[0] && IsDir(es.node, rel[1..]) {
      VisitComplete(JoinPath(path, rel[0]), es.node, exclude, rel[1..]);
    } else {
      VisitAllComplete(path, es.rest, exclude, rel);
    }
  }

  /** The pruned walk of a directory meets exactly the directories with no excluded proper
      ancestor in the walk; that of a file or a link, or one not to recurse, meets just its top; */
  lemma WalkMeetsExactly(top: string, node: Node, exclude: Filter, p: string)
    ensures p in Walked(top, true, node, exclude) <==>
            if node.Dir? then exists rel: seq<string> :: Met(top, node, exclude, rel) && p == JoinAll(top, rel)
            else p == top
    ensures p in Walked(top, false, node, exclude) <==> p == top
  {
    if p in Visit(top, node, exclude) {
      var rel := VisitSound(top, node, exclude, p);
    }
    forall rel: seq<string> | Met(top, node, exclude, rel) && p == JoinAll(top, rel)
      ensures p in Visit(top, node, exclude)
    {
      VisitComplete(top, node, exclude, rel);
    }
  }

  ghost predicate OpenThrough(path: string, rel: seq<string>, exclude: Filter) {
    OpenAbove(path, rel, exclude) && !exclude(JoinAll(path, rel))
  }

  /** and those it leaves unexcluded are exactly the ones with no excluded ancestor or self. */
  lemma WalkRegistersExactly(top: string, node: Node, exclude: Filter, p: string)
    ensures p in Walked(top, true, node, exclude) && !exclude(p) <==>
            if node.Dir?
            then exists rel: seq<string> :: IsDir(node, rel) && OpenThrough(top, rel, exclude) && p == JoinAll(top, rel)
            else p == top && !exclude(top)
  {
    WalkMeetsExactly(top, node, exclude, p);
    if node.Dir? && p in Walked(top, true, node, exclude) && !exclude(p) {
      var rel: seq<string> :| Met(top, node, exclude, rel) && p == JoinAll(top, rel);
      assert IsDir(node, rel) && OpenThrough(top, rel, exclude);
    }
    if rel: seq<string> :| node.Dir? && IsDir(node, rel) && OpenThrough(top, rel, exclude) && p == JoinAll(top, rel) {
      assert Met(top, node, exclude, rel);
    }
  }

  // ---- component paths

  /** Directory entries have proper names. */
  predicate WellNamed(node: Node) {
    node.Dir? ==> WellNamedAll(node.children)
  }

  predicate WellNamedAll(es: Entries) {
    match es
    case Nil => true
    case Entry(name, node, rest) => ValidName(name) && WellNamed(node) && WellNamedAll(rest)
  }

  lemma {:induction false} DirNames(node: Node, rel: seq<string>)
    requires WellNamed(node) && IsDir(node, rel)
    ensures ValidPath(rel)
    decreases node
  {
    if rel != [] { DirNamesIn(node.children, rel); }
  }

  lemma {:induction false} DirNamesIn(es: Entries, rel: seq<string>)
    requires rel != [] && WellNamedAll(es) && IsDirIn(es, rel)
    ensures ValidPath(rel)
    decreases es
  {
    if es.name == rel[0] && IsDir(es.node, rel[1..]) {
      DirNames(es.node, rel[1..]);
      assert rel == [rel[0]] + rel[1..];
    } else {
      DirNamesIn(es.rest, rel);
    }
  }

  lemma {:induction false} JoinAllComponents(path: string, rel: seq<string>)
    requires ValidPath(rel)
    ensures Components(JoinAll(path, rel)) == Components(path) + rel
    decreases |rel|
  {
    hide Components, JoinPath, ValidName;
    if rel != [] {
      JoinComponents(path, rel[0]);
      JoinAllComponents(JoinPath(path, rel[0]), rel[1..]);
      assert rel == [rel[0]] + rel[1..];
    }
  }

  /** Everything a walk meets lies at or below its top. */
  lemma WalkedBelow(top: string, rec: bool, node: Node, exclude: Filter, p: string)
    requires WellNamed(node) && p in Walked(top, rec, node, exclude)
    ensures Components(top) <= Components(p)
  {
    if rec && node.Dir? {
      var rel := VisitSound(top, node, exclude, p);
      DirNames(node, rel);
      JoinAllComponents(top, rel);
    }
  }
}
