/** The watcher's index: a dictionary from watched paths to configurations, filled by walks,
    emptied by subtree removal, and asked for the nearest configured ancestor. */
module PathIndex {
  import opened Outcomes
  import opened Paths
  import opened Walks

  datatype CfgPath = CfgPath(path: string, id: nat, exclude: Filter)

  type Index = map<string, CfgPath>

  // ---- the lookup

  /** `r` is the configuration of a key whose components are the longest among the keys that
      are ancestors of `path` or `path` itself; None means there is no such key. */
  ghost predicate Nearest(m: Index, path: string, r: Option<CfgPath>) {
    match r
    case None => forall k :: k in m ==> !(Components(k) <= Components(path))
    case Some(cfg) => exists k :: NearestKey(m, path, k) && m[k] == cfg
  }

  ghost predicate NearestKey(m: Index, path: string, k: string) {
    && k in m && Components(k) <= Components(path)
    && forall k' :: k' in m && Components(k') <= Components(path) ==> |Components(k')| <= |Components(k)|
  }

  lemma SpellingAnswers(m: Index, path: string, k: string)
    requires k in m && Components(path) == Components(k)
    ensures NearestKey(m, path, k) && Nearest(m, path, Some(m[k]))
  {
    hide Components;
  }

  lemma NearestAlike(m: Index, path: string, k: string, k': string)
    requires NearestKey(m, path, k) && NearestKey(m, path, k')
    ensures Components(k) == Components(k')
  {
    hide Components;
  }

  function TextLength(k: string): nat {
    |AbsPath(k)|
  }

  /** Among keys of its length, `k` comes first. */
  function Insert(k: string, ks: seq<string>): seq<string> {
    if ks == [] || TextLength(ks[0]) <= TextLength(k) then [k] + ks else [ks[0]] + Insert(k, ks[1..])
  }

  /** sorted(keys, key=length, reverse=True): keys of one length stay in their order. */
  function LongestFirst(ks: seq<string>): seq<string> {
    if ks == [] then [] else Insert(ks[0], LongestFirst(ks[1..]))
  }

  predicate Descending(ks: seq<string>) {
    forall i, j :: 0 <= i < j < |ks| ==> TextLength(ks[j]) <= TextLength(ks[i])
  }

  lemma {:induction false} InsertKeeps(k: string, ks: seq<string>)
    requires Descending(ks)
    ensures forall x :: x in Insert(k, ks) <==> x == k || x in ks
    ensures Descending(Insert(k, ks))
  {
    hide TextLength;
    if ks != [] && TextLength(k) < TextLength(ks[0]) {
      InsertKeeps(k, ks[1..]);
      var tail := Insert(k, ks[1..]);
      forall j | 0 <= j < |tail| ensures TextLength(tail[j]) <= TextLength(ks[0]) {
        assert tail[j] in tail;
        if tail[j] != k {
          assert tail[j] in ks[1..];
          var i :| 0 <= i < |ks[1..]| && ks[1..][i] == tail[j];
          assert ks[i + 1] == tail[j];
        }
      }
    }
  }

  lemma {:induction false} LongestFirstKeeps(ks: seq<string>)
    ensures forall x :: x in LongestFirst(ks) <==> x in ks
    ensures Descending(LongestFirst(ks))
  {
    if ks != [] {
      LongestFirstKeeps(ks[1..]);
      InsertKeeps(ks[0], LongestFirst(ks[1..]));
    }
  }

  lemma UnderComponents(root: string, path: string)
    ensures TextUnder(AbsPath(root), AbsPath(path)) <==> Components(root) <= Components(path)
  {
    ComponentsValid(root);
    ComponentsValid(path);
    UnderExact(Components(root), Components(path));
  }

  /** The first of the keys that is an ancestor of the path, or the path. */
  function FirstUnder(ks: seq<string>, text: string): (r: Option<string>)
    ensures r.Some? ==> r.value in ks
  {
    if ks == [] then None
    else if TextUnder(AbsPath(ks[0]), text) then Some(ks[0])
    else FirstUnder(ks[1..], text)
  }

  /** An order in which a dictionary may keep its keys. */
  ghost predicate KeyOrder(m: Index, keys: seq<string>) {
    && (forall k :: k in keys <==> k in m)
    && (forall i, j :: 0 <= i < j < |keys| ==> keys[i] != keys[j])
  }

  /** The lookup, for the order its keys are kept in. */
  function Scan(m: Index, path: string, keys: seq<string>): Option<CfgPath>
    requires forall k :: k in keys ==> k in m
  {
    LongestFirstKeeps(keys);
    match FirstUnder(LongestFirst(keys), AbsPath(path))
    case None => None
    case Some(k) => Some(m[k])
  }

  lemma {:induction false} FirstUnderIs(ks: seq<string>, path: string) returns (i: nat)
    ensures i <= |ks| && forall j :: 0 <= j < i ==> !(Components(ks[j]) <= Components(path))
    ensures FirstUnder(ks, AbsPath(path)) == if i < |ks| then Some(ks[i]) else None
    ensures i < |ks| ==> Components(ks[i]) <= Components(path)
  {
    hide Components, AbsPath, TextUnder;
    if ks == [] {
      i := 0;
    } else {
      UnderComponents(ks[0], path);
      if TextUnder(AbsPath(ks[0]), AbsPath(path)) {
        i := 0;
      } else {
        var k := FirstUnderIs(ks[1..], path);
        i := k + 1;
      }
    }
  }

  lemma FirstIsNearest(m: Index, path: string, ks: seq<string>, i: nat)
    requires i < |ks| && Descending(ks) && forall k :: k in ks <==> k in m
    requires Components(ks[i]) <= Components(path)
    requires forall j :: 0 <= j < i ==> !(Components(ks[j]) <= Components(path))
    ensures NearestKey(m, path, ks[i])
  {
    hide Components;
    ComponentsValid(path);
    assert ks[i] in ks;
    forall k | k in m && Components(k) <= Components(path) ensures |Components(k)| <= |Components(ks[i])| {
      assert k in ks;
      var j :| 0 <= j < |ks| && ks[j] == k;
      assert i <= j;
      DeeperIsLonger(Components(k), Components(ks[i]), Components(path));
    }
  }

  /** Whatever the order, the scan answers with a nearest key's configuration. */
  lemma ScanNearest(m: Index, path: string, keys: seq<string>)
    requires KeyOrder(m, keys)
    ensures Nearest(m, path, Scan(m, path, keys))
  {
    hide Components, AbsPath, LongestFirst, FirstUnder;
    var ks := LongestFirst(keys);
    LongestFirstKeeps(keys);
    var i := FirstUnderIs(ks, path);
    if i < |ks| {
      FirstIsNearest(m, path, ks, i);
    } else {
      forall k | k in m ensures !(Components(k) <= Components(path)) {
        assert k in ks;
      }
    }
  }

  lemma {:induction false} InsertedFirst(k: string, ks: seq<string>, text: string)
    requires TextUnder(AbsPath(k), text)
    requires forall x :: x in ks && TextUnder(AbsPath(x), text) ==> TextLength(x) <= TextLength(k)
    ensures FirstUnder(Insert(k, ks), text) == Some(k)
  {
    hide TextUnder, AbsPath, TextLength;
    if ks == [] || TextLength(ks[0]) <= TextLength(k) {
      assert ([k] + ks)[0] == k;
    } else {
      assert forall x :: x in ks[1..] ==> x in ks;
      InsertedFirst(k, ks[1..], text);
      assert ([ks[0]] + Insert(k, ks[1..]))[1..] == Insert(k, ks[1..]);
    }
  }

  lemma {:induction false} InsertedOther(k: string, ks: seq<string>, text: string, r: string)
    requires Descending(ks) && FirstUnder(ks, text) == Some(r)
    requires TextUnder(AbsPath(k), text) ==> TextLength(k) < TextLength(r)
    ensures FirstUnder(Insert(k, ks), text) == Some(r)
  {
    hide TextUnder, AbsPath, TextLength;
    var i :| 0 <= i < |ks| && ks[i] == r;
    if TextLength(ks[0]) <= TextLength(k) {
      assert TextLength(ks[i]) <= TextLength(ks[0]);
      assert ([k] + ks)[1..] == ks;
    } else if !TextUnder(AbsPath(ks[0]), text) {
      InsertedOther(k, ks[1..], text, r);
      assert ([ks[0]] + Insert(k, ks[1..]))[1..] == Insert(k, ks[1..]);
    }
  }

  /** The sort being stable, the first of the longest ancestors is found. */
  lemma {:induction false} EarliestLongest(keys: seq<string>, text: string, i: nat)
    requires i < |keys| && TextUnder(AbsPath(keys[i]), text)
    requires forall j :: 0 <= j < |keys| && TextUnder(AbsPath(keys[j]), text) ==>
                           TextLength(keys[j]) <= TextLength(keys[i])
    requires forall j :: 0 <= j < i && TextUnder(AbsPath(keys[j]), text) ==>
                           TextLength(keys[j]) < TextLength(keys[i])
    ensures FirstUnder(LongestFirst(keys), text) == Some(keys[i])
    decreases |keys|
  {
    hide TextUnder, AbsPath, TextLength, FirstUnder, Insert;
    var rest := keys[1..];
    LongestFirstKeeps(rest);
    if i == 0 {
      forall x | x in LongestFirst(rest) && TextUnder(AbsPath(x), text) ensures TextLength(x) <= TextLength(keys[0]) {
        assert x in rest;
        var j :| 0 <= j < |rest| && rest[j] == x;
        assert keys[j + 1] == x;
      }
      InsertedFirst(keys[0], LongestFirst(rest), text);
    } else {
      assert forall j :: 0 <= j < |rest| ==> rest[j] == keys[j + 1];
      EarliestLongest(rest, text, i - 1);
      InsertedOther(keys[0], LongestFirst(rest), text, keys[i]);
    }
  }

  /** Of several nearest keys, the one kept first answers. */
  lemma EarliestAnswers(m: Index, path: string, keys: seq<string>, i: nat)
    requires KeyOrder(m, keys) && i < |keys| && NearestKey(m, path, keys[i])
    requires forall j :: 0 <= j < i ==> !NearestKey(m, path, keys[j])
    ensures Scan(m, path, keys) == Some(m[keys[i]])
  {
    hide Components, AbsPath, TextUnder, TextLength, FirstUnder, LongestFirst, NearestKey;
    var text := AbsPath(path);
    forall j | 0 <= j < |keys| && TextUnder(AbsPath(keys[j]), text)
      ensures TextLength(keys[j]) <= TextLength(keys[i])
      ensures j < i ==> TextLength(keys[j]) < TextLength(keys[i])
    {
      assert keys[j] in keys;
      UnderComponents(keys[j], path);
      NearestLongest(m, path, keys[i], keys[j]);
    }
    assert TextUnder(AbsPath(keys[i]), text) by {
      UnderComponents(keys[i], path);
      NearestUnder(m, path, keys[i]);
    }
    EarliestLongest(keys, text, i);
  }

  lemma NearestUnder(m: Index, path: string, k: string)
    requires NearestKey(m, path, k)
    ensures k in m && Components(k) <= Components(path)
  {
  }

  lemma {:induction false} SomeOrder(ks: set<string>) returns (keys: seq<string>)
    ensures forall k :: k in keys <==> k in ks
    ensures forall i, j :: 0 <= i < j < |keys| ==> keys[i] != keys[j]
  {
    keys := [];
    if ks != {} {
      var k :| k in ks;
      var rest := SomeOrder(ks - {k});
      keys := [k] + rest;
      assert k !in rest;
    }
  }

  /** So each of the nearest keys answers in some order. */
  lemma NearestScanned(m: Index, path: string, k: string) returns (keys: seq<string>)
    requires NearestKey(m, path, k)
    ensures KeyOrder(m, keys) && Scan(m, path, keys) == Some(m[k])
  {
    hide Components, NearestKey, Scan;
    NearestUnder(m, path, k);
    var rest := SomeOrder(m.Keys - {k});
    keys := [k] + rest;
    assert k !in rest;
    assert KeyOrder(m, keys);
    EarliestAnswers(m, path, keys, 0);
  }

  lemma NearestLongest(m: Index, path: string, k: string, x: string)
    requires NearestKey(m, path, k) && x in m && Components(x) <= Components(path)
    ensures TextLength(x) <= TextLength(k)
    ensures TextLength(x) == TextLength(k) ==> NearestKey(m, path, x)
  {
    hide Components;
    ComponentsValid(path);
    DeeperIsLonger(Components(x), Components(k), Components(path));
    DeeperIsLonger(Components(k), Components(x), Components(path));
  }

  /** The answers of the scan, over all orders of the keys, are the nearest ones. */
  lemma ScanExact(m: Index, path: string, r: Option<CfgPath>)
    ensures Nearest(m, path, r) <==> exists keys :: KeyOrder(m, keys) && Scan(m, path, keys) == r
  {
    hide Components, Scan;
    forall keys | KeyOrder(m, keys) ensures Nearest(m, path, Scan(m, path, keys)) {
      ScanNearest(m, path, keys);
    }
    if Nearest(m, path, r) {
      var keys;
      if r.Some? {
        var k :| NearestKey(m, path, k) && m[k] == r.value;
        keys := NearestScanned(m, path, k);
      } else {
        keys := SomeOrder(m.Keys);
        NoneNearest(m, path, Scan(m, path, keys));
      }
      assert KeyOrder(m, keys) && Scan(m, path, keys) == r;
    }
  }

  lemma NoneNearest(m: Index, path: string, r: Option<CfgPath>)
    requires Nearest(m, path, None)
    ensures Nearest(m, path, r) ==> r == None
  {
    hide Components;
  }

  lemma NearestAgree(m: Index, path: string, r: Option<CfgPath>, s: Option<CfgPath>)
    requires Nearest(m, path, r) && Nearest(m, path, s)
    requires forall k, k' :: k in m && k' in m && Components(k) == Components(k') ==> m[k] == m[k']
    ensures r == s
  {
    hide Components;
    if r.Some? && s.Some? {
      var k :| NearestKey(m, path, k) && m[k] == r.value;
      var k' :| NearestKey(m, path, k') && m[k'] == s.value;
      NearestAlike(m, path, k, k');
    }
  }

  /** The lookup does not depend on the order the keys are kept in, for any path, exactly if
      keys that spell one directory hold one configuration. */
  lemma OrderIrrelevant(m: Index)
    ensures (forall path, a, b :: KeyOrder(m, a) && KeyOrder(m, b) ==> Scan(m, path, a) == Scan(m, path, b))
            <==> (forall k, k' :: k in m && k' in m && Components(k) == Components(k') ==> m[k] == m[k'])
  {
    hide Components, Scan, Nearest, NearestKey;
    if forall k, k' :: k in m && k' in m && Components(k) == Components(k') ==> m[k] == m[k'] {
      forall path, a, b | KeyOrder(m, a) && KeyOrder(m, b) ensures Scan(m, path, a) == Scan(m, path, b) {
        ScanNearest(m, path, a);
        ScanNearest(m, path, b);
        NearestAgree(m, path, Scan(m, path, a), Scan(m, path, b));
      }
    } else {
      var k, k' :| k in m && k' in m && Components(k) == Components(k') && m[k] != m[k'];
      SpellingAnswers(m, k, k);
      SpellingAnswers(m, k, k');
      var a := NearestScanned(m, k, k);
      var b := NearestScanned(m, k, k');
      assert Scan(m, k, a) != Scan(m, k, b);
    }
  }

  /** A key's own directory is answered with what the key holds, in every order, exactly if no
      other spelling of it holds anything else. */
  lemma KeyAnswers(m: Index, p: string)
    requires p in m
    ensures (forall keys :: KeyOrder(m, keys) ==> Scan(m, p, keys) == Some(m[p]))
            <==> (forall k :: k in m && Components(k) == Components(p) ==> m[k] == m[p])
  {
    hide Components, Scan;
    SpellingAnswers(m, p, p);
    if forall k :: k in m && Components(k) == Components(p) ==> m[k] == m[p] {
      forall keys | KeyOrder(m, keys) ensures Scan(m, p, keys) == Some(m[p]) {
        ScanNearest(m, p, keys);
        NearestOwn(m, p, Scan(m, p, keys));
      }
    } else {
      var k :| k in m && Components(k) == Components(p) && m[k] != m[p];
      SpellingAnswers(m, p, k);
      var keys := NearestScanned(m, p, k);
      assert Scan(m, p, keys) != Some(m[p]);
    }
  }

  lemma NearestOwn(m: Index, p: string, r: Option<CfgPath>)
    requires p in m && Nearest(m, p, r)
    requires forall k :: k in m && Components(k) == Components(p) ==> m[k] == m[p]
    ensures r == Some(m[p])
  {
    hide Components;
    SpellingAnswers(m, p, p);
    if r.Some? {
      var k :| NearestKey(m, p, k) && m[k] == r.value;
      NearestAlike(m, p, k, p);
    }
  }

  // ---- commands

  /** One queued command, with what its execution meets: the tree below the path and the
      watch descriptors handed out, or whether the removal of the watch succeeded. */
  datatype Command =
    | Add(cfg: CfgPath, node: Node, watch: string -> int)
    | Rem(cfg: CfgPath, removed: bool)
    | Invalid

  function WalkedBy(cmd: Command): seq<string>
    requires cmd.Add?
  {
    Walked(cmd.cfg.path, true, cmd.node, cmd.cfg.exclude)
  }

  ghost predicate Registers(cmd: Command, p: string)
    requires cmd.Add?
  {
    p in WalkedBy(cmd) && !cmd.cfg.exclude(p)
  }

  /** A failed watch aborts the whole command. */
  ghost predicate AllWatched(cmd: Command)
    requires cmd.Add?
  {
    forall p :: Registers(cmd, p) ==> 0 <= cmd.watch(p)
  }

  ghost function After(m: Index, cmd: Command): Index {
    match cmd
    case Add(cfg, _, _) => if AllWatched(cmd) then m + (map p | p in WalkedBy(cmd) && Registers(cmd, p) :: cfg) else m
    case Rem(cfg, removed) =>
      if cfg.path in m && removed then map k | k in m && !(Components(cfg.path) <= Components(k)) :: m[k] else m
    case Invalid => m
  }

  ghost function StateAt(m: Index, cmds: seq<Command>, n: nat): Index
    requires n <= |cmds|
  {
    if n == 0 then m else After(StateAt(m, cmds, n - 1), cmds[n - 1])
  }

  lemma WrittenAll(m: Index, cmd: Command, wdd: map<string, int>, m': Index)
    requires cmd.Add? && AllWatched(cmd)
    requires wdd == map p | p in WalkedBy(cmd) :: if cmd.cfg.exclude(p) then -2 else cmd.watch(p)
    requires forall p :: p in m' <==> p in m || (p in wdd && 0 <= wdd[p])
    requires forall p :: p in m' ==> m'[p] == if p in wdd && 0 <= wdd[p] then cmd.cfg else m[p]
    ensures m' == After(m, cmd)
  {
    hide WalkedBy;
    assert forall p :: p in wdd && 0 <= wdd[p] <==> Registers(cmd, p);
  }

  class DWhoInotify {
    var cfgPaths: Index

    constructor ()
      ensures cfgPaths == map[]
    {
      cfgPaths := map[];
    }

    method GetCfgPath(path: string) returns (r: Option<CfgPath>)
      ensures exists keys :: KeyOrder(cfgPaths, keys) && r == Scan(cfgPaths, path, keys)
      ensures Nearest(cfgPaths, path, r)
    {
      hide Components, AbsPath, TextUnder, LongestFirst, Nearest;
      // the dictionary's keys, in whatever order it keeps them
      var keys, rest := [], cfgPaths.Keys;
      while rest != {}
        invariant forall k :: k in cfgPaths <==> k in keys || k in rest
        invariant forall k :: k in keys ==> k !in rest
        invariant forall i, j :: 0 <= i < j < |keys| ==> keys[i] != keys[j]
        decreases rest
      {
        var k :| k in rest;
        keys, rest := keys + [k], rest - {k};
      }
      assert KeyOrder(cfgPaths, keys);
      ScanNearest(cfgPaths, path, keys);
      LongestFirstKeeps(keys);
      var paths := LongestFirst(keys);
      var text := AbsPath(path);
      assert paths[0..] == paths;
      for i := 0 to |paths|
        invariant FirstUnder(paths[i..], text) == FirstUnder(paths, text)
      {
        assert paths[i] in paths;
        assert paths[i..][0] == paths[i] && paths[i..][1..] == paths[i + 1..];
        if TextUnder(AbsPath(paths[i]), text) {
          return Some(cfgPaths[paths[i]]);
        }
      }
      return None;
    }

    /** Watch descriptors by path, -2 for excluded ones; None when a watch failed. */
    method Watch(cmd: Command) returns (r: Option<map<string, int>>)
      requires cmd.Add?
      ensures r.Some? <==> forall p :: p in WalkedBy(cmd) && !cmd.cfg.exclude(p) ==> 0 <= cmd.watch(p)
      ensures r.Some? ==> r.value == map p | p in WalkedBy(cmd) :: if cmd.cfg.exclude(p) then -2 else cmd.watch(p)
    {
      var walked := WalkRec(cmd.cfg.path, true, cmd.node, cmd.cfg.exclude);
      hide Walked;
      var wdd: map<string, int> := map[];
      for i := 0 to |walked|
        invariant wdd.Keys == set j | 0 <= j < i :: walked[j]
        invariant forall p :: p in wdd ==> wdd[p] == if cmd.cfg.exclude(p) then -2 else cmd.watch(p)
        invariant forall p :: p in wdd && !cmd.cfg.exclude(p) ==> 0 <= cmd.watch(p)
      {
        var rpath := walked[i];
        assert rpath in WalkedBy(cmd);
        if !cmd.cfg.exclude(rpath) {
          var wd := cmd.watch(rpath);
          wdd := wdd[rpath := wd];
          if wd < 0 {
            assert Registers(cmd, rpath);
            return None;
          }
        } else {
          wdd := wdd[rpath := -2];
        }
      }
      assert forall p :: p in wdd <==> p in WalkedBy(cmd);
      return Some(wdd);
    }

    method AddWatch(cmd: Command)
      requires cmd.Add?
      modifies this
      ensures cfgPaths == After(old(cfgPaths), cmd)
      ensures if exists p :: Registers(cmd, p) && cmd.watch(p) < 0 then cfgPaths == old(cfgPaths)
              else forall p :: if Registers(cmd, p) then p in cfgPaths && cfgPaths[p] == cmd.cfg
                               else (p in cfgPaths <==> p in old(cfgPaths))
                                    && (p in cfgPaths ==> cfgPaths[p] == old(cfgPaths)[p])
    {
      var watched := Watch(cmd);
      if watched.None? {
        return;
      }
      hide WalkedBy, AllWatched, After;
      var wdd := watched.value;
      var rest := wdd.Keys;
      while rest != {}
        invariant rest <= wdd.Keys
        invariant forall p :: p in cfgPaths <==> p in old(cfgPaths) || (p in wdd && p !in rest && 0 <= wdd[p])
        invariant forall p :: p in cfgPaths ==>
                    cfgPaths[p] == if p in wdd && p !in rest && 0 <= wdd[p] then cmd.cfg else old(cfgPaths)[p]
        decreases rest
      {
        var wpath :| wpath in rest;
        rest := rest - {wpath};
        if !(wdd[wpath] == -2 || wdd[wpath] < 0) {
          cfgPaths := cfgPaths[wpath := cmd.cfg];
        }
      }
      WrittenAll(old(cfgPaths), cmd, wdd, cfgPaths);
    }

    method RemWatch(cfg: CfgPath, removed: bool)
      modifies this
      ensures cfgPaths == After(old(cfgPaths), Rem(cfg, removed))
      ensures if cfg.path !in old(cfgPaths) || !removed then cfgPaths == old(cfgPaths)
              else forall k :: && (k in cfgPaths <==> k in old(cfgPaths) && !(Components(cfg.path) <= Components(k)))
                               && (k in cfgPaths ==> cfgPaths[k] == old(cfgPaths)[k])
    {
      if cfg.path !in cfgPaths || !removed {
        return;
      }
      hide Components, AbsPath, TextUnder;
      var root := AbsPath(cfg.path);
      var rest := cfgPaths.Keys;
      while rest != {}
        invariant rest <= cfgPaths.Keys <= old(cfgPaths).Keys
        invariant forall k :: k in cfgPaths ==> cfgPaths[k] == old(cfgPaths)[k]
        invariant forall k :: k in old(cfgPaths) && k !in rest ==>
                    (k in cfgPaths <==> !(Components(cfg.path) <= Components(k)))
        decreases rest
      {
        var path :| path in rest;
        rest := rest - {path};
        UnderComponents(cfg.path, path);
        if TextUnder(root, AbsPath(path)) {
          cfgPaths := cfgPaths - {path};
        }
      }
    }

    /** The command loop, up to the end of the queue or a command of unknown mode. */
    method Run(cmds: seq<Command>) returns (n: nat)
      modifies this
      ensures n <= |cmds|
      ensures cfgPaths == StateAt(old(cfgPaths), cmds, n)
      ensures n < |cmds| ==> cmds[n].Invalid?
      ensures forall i :: 0 <= i < n ==> !cmds[i].Invalid?
    {
      hide After, Components, Registers;
      n := 0;
      while n < |cmds|
        invariant n <= |cmds| && cfgPaths == StateAt(old(cfgPaths), cmds, n)
        invariant forall i :: 0 <= i < n ==> !cmds[i].Invalid?
      {
        match cmds[n] {
          case Add(_, _, _) => AddWatch(cmds[n]);
          case Rem(cfg, removed) => RemWatch(cfg, removed);
          case Invalid => return;
        }
        n := n + 1;
      }
    }
  }

  // ---- runs of commands

  ghost predicate Writes(cmd: Command, p: string) {
    cmd.Add? && AllWatched(cmd) && Registers(cmd, p)
  }

  /** A directory the command's walk reaches with nothing excluded on the way, itself included. */
  ghost predicate Reached(cmd: Command, p: string)
    requires cmd.Add?
  {
    var top, exclude := cmd.cfg.path, cmd.cfg.exclude;
    if !cmd.node.Dir? then p == top && !exclude(top)
    else exists rel: seq<string> :: IsDir(cmd.node, rel) && OpenThrough(top, rel, exclude) && p == JoinAll(top, rel)
  }

  /** An ADD writes just the directories it reaches, if every one of them can be watched. */
  lemma WritesExactly(cmd: Command, p: string)
    ensures Writes(cmd, p) <==> cmd.Add? && Reached(cmd, p) && forall q :: Reached(cmd, q) ==> 0 <= cmd.watch(q)
  {
    if cmd.Add? {
      forall q ensures Reached(cmd, q) <==> Registers(cmd, q) {
        WalkRegistersExactly(cmd.cfg.path, cmd.node, cmd.cfg.exclude, q);
      }
      hide Reached, Registers;
    }
  }

  ghost predicate Erases(m: Index, cmd: Command, p: string) {
    cmd.Rem? && cmd.removed && cmd.cfg.path in m && Components(cmd.cfg.path) <= Components(p)
  }

  /** Command `i` wrote `p`, and no later one, up to `n`, wrote or erased it. */
  ghost predicate LastWrite(m: Index, cmds: seq<Command>, n: nat, p: string, i: nat)
    requires n <= |cmds|
  {
    && i < n && Writes(cmds[i], p)
    && forall j :: i < j < n ==> !Writes(cmds[j], p) && !Erases(StateAt(m, cmds, j), cmds[j], p)
  }

  lemma AfterAt(m: Index, cmd: Command, p: string)
    ensures Writes(cmd, p) ==> p in After(m, cmd) && After(m, cmd)[p] == cmd.cfg
    ensures Erases(m, cmd, p) ==> p !in After(m, cmd)
    ensures !Writes(cmd, p) && !Erases(m, cmd, p) ==>
              (p in After(m, cmd) <==> p in m) && (p in m ==> After(m, cmd)[p] == m[p])
  {
    hide Walked, Components;
  }

  lemma TwoSpellings()
    ensures Components("/a") == ["a"] && Components("/a/") == ["a"]
  {
    assert ValidName("a");
    assert Slashed(["a"]) == "/a" by { assert "/" + "a" + "" == "/a"; }
    ComponentsOfText(["a"]);
    SplitSnoc("/a", "");
    assert "/a" + ("/" + "") == "/a/";
    ResolveSnoc([], Split("/a"), "");
  }

  /** An ADD of one empty directory under the path it is given. */
  lemma AddedAlone(m: Index, cmd: Command)
    requires cmd.Add? && cmd.node == Dir(Nil) && !cmd.cfg.exclude(cmd.cfg.path) && 0 <= cmd.watch(cmd.cfg.path)
    ensures After(m, cmd) == m[cmd.cfg.path := cmd.cfg]
  {
    assert WalkedBy(cmd) == [cmd.cfg.path];
  }

  /** One directory added under two spellings answers with either configuration, depending on
      which key the dictionary keeps first. */
  lemma SpellingsCompete(x: CfgPath, y: CfgPath, watch: string -> int)
    requires x.path == "/a" && y.path == "/a/" && !x.exclude("/a") && !y.exclude("/a/")
    requires 0 <= watch("/a") && 0 <= watch("/a/")
    ensures var m := StateAt(map[], [Add(x, Dir(Nil), watch), Add(y, Dir(Nil), watch)], 2);
            && KeyOrder(m, ["/a", "/a/"]) && Scan(m, "/a", ["/a", "/a/"]) == Some(x)
            && KeyOrder(m, ["/a/", "/a"]) && Scan(m, "/a", ["/a/", "/a"]) == Some(y)
  {
    var cmds := [Add(x, Dir(Nil), watch), Add(y, Dir(Nil), watch)];
    hide Components, After, Nearest, NearestKey, Scan;
    AddedAlone(map[], cmds[0]);
    AddedAlone(map["/a" := x], cmds[1]);
    var m := StateAt(map[], cmds, 2);
    assert m == After(StateAt(map[], cmds, 1), cmds[1]) == map["/a" := x, "/a/" := y];
    TwoSpellings();
    SpellingAnswers(m, "/a", "/a");
    SpellingAnswers(m, "/a", "/a/");
    EarliestAnswers(m, "/a", ["/a", "/a/"], 0);
    EarliestAnswers(m, "/a", ["/a/", "/a"], 0);
  }

  /** From an empty index, after any sequence of commands, a path is configured exactly when
      some ADD wrote it and no later effective REM covers it; the last such ADD wins. */
  lemma {:induction false} LastWriterWins(cmds: seq<Command>, n: nat, p: string)
    requires n <= |cmds|
    ensures p in StateAt(map[], cmds, n) <==> exists i: nat :: LastWrite(map[], cmds, n, p, i)
    ensures forall i: nat :: LastWrite(map[], cmds, n, p, i) ==>
                               p in StateAt(map[], cmds, n) && StateAt(map[], cmds, n)[p] == cmds[i].cfg
  {
    hide Writes, Erases, After;
    if 0 < n {
      var k := n - 1;
      var m := StateAt(map[], cmds, k);
      LastWriterWins(cmds, k, p);
      AfterAt(m, cmds[k], p);
      if Writes(cmds[k], p) {
        assert LastWrite(map[], cmds, n, p, k);
      } else if !Erases(m, cmds[k], p) {
        forall i: nat ensures LastWrite(map[], cmds, n, p, i) <==> LastWrite(map[], cmds, k, p, i) {
        }
      }
    }
  }

  lemma PrefixesCompare(a: seq<string>, b: seq<string>, p: seq<string>)
    requires a <= p && b <= p
    ensures a <= b || b <= a
  {
  }

  /** After an effective removal, only keys outside the removed subtree are left, as they
      were. Paths outside it keep their answers; inside it, everything answers as its root. */
  lemma LookupAfterRem(m: Index, cfg: CfgPath, path: string, r: Option<CfgPath>)
    requires cfg.path in m
    ensures var m' := After(m, Rem(cfg, true));
            && (forall k :: k in m' <==> k in m && !(Components(cfg.path) <= Components(k)))
            && (forall k :: k in m' ==> m'[k] == m[k])
            && (!(Components(cfg.path) <= Components(path)) ==> (Nearest(m', path, r) <==> Nearest(m, path, r)))
            && (Components(cfg.path) <= Components(path) ==>
                  (Nearest(m', path, r) <==> Nearest(m', cfg.path, r)))
  {
    hide Components;
    var m' := After(m, Rem(cfg, true));
    var root := Components(cfg.path);
    if root <= Components(path) {
      forall k | k in m' ensures Components(k) <= Components(path) <==> Components(k) <= root {
        if Components(k) <= Components(path) {
          PrefixesCompare(Components(k), root, Components(path));
        }
      }
      assert forall k :: NearestKey(m', path, k) <==> NearestKey(m', cfg.path, k);
    } else {
      forall k ensures NearestKey(m', path, k) <==> NearestKey(m, path, k) {
        assert Components(k) <= Components(path) ==> !(root <= Components(k));
      }
    }
  }

  /** Every key lies at or below the path of its configuration. */
  ghost predicate KeysBelow(m: Index) {
    forall k :: k in m ==> Components(m[k].path) <= Components(k)
  }

  lemma {:induction false} KeysStayBelow(m: Index, cmds: seq<Command>, n: nat)
    requires n <= |cmds| && KeysBelow(m)
    requires forall i :: 0 <= i < n && cmds[i].Add? ==> WellNamed(cmds[i].node)
    ensures KeysBelow(StateAt(m, cmds, n))
  {
    hide Components, Walked, WellNamed;
    if 0 < n {
      KeysStayBelow(m, cmds, n - 1);
      var before, cmd := StateAt(m, cmds, n - 1), cmds[n - 1];
      forall k | k in After(before, cmd) ensures Components(After(before, cmd)[k].path) <= Components(k) {
        AfterAt(before, cmd, k);
        if Writes(cmd, k) {
          WalkedBelow(cmd.cfg.path, true, cmd.node, cmd.cfg.exclude, k);
        }
      }
    }
  }

  /** A registered directory answers with the configuration just added, whatever the order of
      the keys, exactly if no other spelling of it holds another one. */
  lemma AddedAnswers(m: Index, cmd: Command, p: string)
    requires cmd.Add? && Writes(cmd, p)
    ensures var m' := After(m, cmd);
            (forall keys :: KeyOrder(m', keys) ==> Scan(m', p, keys) == Some(cmd.cfg))
            <==> (forall k :: k in m' && Components(k) == Components(p) ==> m'[k] == cmd.cfg)
  {
    hide Components, Writes, After, Scan;
    AfterAt(m, cmd, p);
    KeyAnswers(After(m, cmd), p);
  }
}
