/** Path lookup (fs/vfs.c): a directory tree is searched level by level, through a
    callback that leaves its match in a result that is never cleared. */
module Vfs {
  import opened CString
  import opened Wrappers

  datatype Inode = File(id: nat) | Dir(id: nat, entries: seq<DirEntry>)

  datatype DirEntry = DirEntry(name: string, inode: Inode)

  /** path_item holds 255 characters, with the terminator. */
  const PATH_ITEM: nat := 255

  // ----- paths -----

  /** The length of the component that starts at index i. */
  function ItemEnd(path: string, i: nat): (j: nat)
    requires i <= |path|
    ensures i <= j <= |path| && '/' !in path[i..j] && (j < |path| ==> path[j] == '/')
    decreases |path| - i
  {
    if i == |path| || path[i] == '/' then i
    else
      var j := ItemEnd(path, i + 1);
      assert path[i..j] == [path[i]] + path[i + 1..j];
      j
  }

  /** The components of a path from index i on; a slash at the very end adds none. */
  function Components(path: string, i: nat): (cs: seq<string>)
    requires i <= |path|
    decreases |path| - i
  {
    if i == |path| then []
    else
      var j := ItemEnd(path, i);
      [path[i..j]] + if j == |path| then [] else Components(path, j + 1)
  }

  /** The path that names these components. */
  function Join(cs: seq<string>): (path: string) {
    if cs == [] then "" else if |cs| == 1 then cs[0] else cs[0] + "/" + Join(cs[1..])
  }

  lemma {:induction false} ItemEndAt(path: string, i: nat, c: string)
    requires i + |c| <= |path| && path[i..i + |c|] == c && '/' !in c
    requires i + |c| < |path| ==> path[i + |c|] == '/'
    ensures ItemEnd(path, i) == i + |c|
    decreases |c|
  {
    if c != "" {
      assert path[i] == path[i..i + |c|][0] == c[0];
      assert path[i + 1..i + |c|] == path[i..i + |c|][1..] == c[1..];
      ItemEndAt(path, i + 1, c[1..]);
    }
  }

  lemma ComponentsStep(path: string, i: nat, c: string)
    requires i + |c| <= |path| && path[i..i + |c|] == c && c != "" && '/' !in c
    requires i + |c| < |path| ==> path[i + |c|] == '/'
    ensures Components(path, i)
         == [c] + if i + |c| == |path| then [] else Components(path, i + |c| + 1)
  {
    ItemEndAt(path, i, c);
  }

  lemma SplitSuffix(path: string, i: nat, c: string, tail: string)
    requires i <= |path| && path[i..] == c + tail
    ensures i + |c| <= |path| && path[i..i + |c|] == c
    ensures path[i + |c|..] == tail && (tail == "" <==> i + |c| == |path|)
    ensures tail != "" ==> path[i + |c|] == tail[0] && path[i + |c| + 1..] == tail[1..]
  {
    var rest := path[i..];
    assert path[i..i + |c|] == rest[..|c|];
    assert path[i + |c|..] == rest[|c|..];
    if tail != "" {
      assert path[i + |c|] == rest[|c|];
      assert path[i + |c| + 1..] == rest[|c| + 1..];
    }
  }

  /** Non-empty components without slashes. */
  predicate Names(cs: seq<string>) {
    forall k :: 0 <= k < |cs| ==> cs[k] != "" && '/' !in cs[k]
  }

  lemma NamesTail(cs: seq<string>)
    requires Names(cs) && cs != []
    ensures cs[0] != "" && '/' !in cs[0] && Names(cs[1..])
    ensures cs == [cs[0]] + cs[1..]
  {
  }

  /** What follows the first component in a joined path. */
  function JoinTail(cs: seq<string>, slash: string): (t: string)
    requires cs != []
  {
    if |cs| == 1 then slash else "/" + (Join(cs[1..]) + slash)
  }

  lemma JoinHead(cs: seq<string>, slash: string)
    requires cs != []
    ensures Join(cs) + slash == cs[0] + JoinTail(cs, slash)
    ensures |cs| == 1 ==> JoinTail(cs, slash) == slash
    ensures |cs| > 1 ==> JoinTail(cs, slash) != "" && JoinTail(cs, slash)[0] == '/'
    ensures |cs| > 1 ==> JoinTail(cs, slash)[1..] == Join(cs[1..]) + slash
  {
    if |cs| > 1 {
      Regroup(cs[0], Join(cs[1..]), slash);
    }
  }

  /** Nothing is left behind the last component but perhaps the slash. */
  lemma NoComponentsBehind(path: string, at: nat, slash: string)
    requires at <= |path| && slash == path[at..] && (slash == "" || slash == "/")
    ensures at < |path| ==> at + 1 == |path| && Components(path, at + 1) == []
  {
  }

  lemma Regroup(a: string, b: string, c: string)
    ensures a + "/" + b + c == a + ("/" + (b + c)) && ("/" + (b + c))[1..] == b + c
  {
  }

  /** Where the first component of a joined path ends, and what follows it. */
  lemma JoinStep(path: string, i: nat, cs: seq<string>, slash: string)
    requires i <= |path| && cs != [] && Names(cs)
    requires path[i..] == Join(cs) + slash && (slash == "" || slash == "/")
    ensures var j := i + |cs[0]|;
      && j <= |path| && path[i..j] == cs[0]
      && (j < |path| ==> path[j] == '/')
      && (|cs| == 1 ==> path[j..] == slash)
      && (|cs| > 1 ==> j < |path| && path[j + 1..] == Join(cs[1..]) + slash)
  {
    hide Join, JoinTail;
    JoinHead(cs, slash);
    SplitSuffix(path, i, cs[0], JoinTail(cs, slash));
  }

  /** Splitting undoes joining, and one slash behind the path changes nothing. */
  lemma {:induction false} ComponentsOfJoin(path: string, i: nat, cs: seq<string>, slash: string)
    requires i <= |path| && cs != [] && Names(cs)
    requires path[i..] == Join(cs) + slash && (slash == "" || slash == "/")
    ensures Components(path, i) == cs
    decreases |cs|
  {
    hide Components, Join, Names;
    var j := i + |cs[0]|;
    NamesTail(cs);
    JoinStep(path, i, cs, slash);
    ComponentsStep(path, i, cs[0]);
    if |cs| > 1 {
      ComponentsOfJoin(path, j + 1, cs[1..], slash);
    } else {
      NoComponentsBehind(path, j, slash);
    }
  }

  lemma NoComponents(path: string)
    ensures Components(path, |path|) == []
  {
  }

  // ----- lookup -----

  /** The last entry with this name, which is what the callback leaves behind. */
  function Find(es: seq<DirEntry>, name: string): (r: Option<Inode>) {
    if es == [] then None
    else
      var later := Find(es[1..], name);
      if later.Some? then later else if es[0].name == name then Some(es[0].inode) else None
  }

  /** The inodes of all other entries, in order. */
  function Others(es: seq<DirEntry>, name: string): (r: seq<Inode>) {
    if es == [] then []
    else (if es[0].name == name then [] else [es[0].inode]) + Others(es[1..], name)
  }

  lemma {:induction false} FindIff(es: seq<DirEntry>, name: string, n: Inode)
    requires forall i, j :: 0 <= i < j < |es| ==> es[i].name != es[j].name
    ensures Find(es, name) == Some(n) <==> DirEntry(name, n) in es
    decreases |es|
  {
    if es != [] {
      FindIff(es[1..], name, n);
      assert es == [es[0]] + es[1..];
      FindName(es[1..], name);
    }
  }

  lemma {:induction false} FindName(es: seq<DirEntry>, name: string)
    ensures Find(es, name).Some? <==> exists i :: 0 <= i < |es| && es[i].name == name
    decreases |es|
  {
    if es != [] {
      FindName(es[1..], name);
      assert es == [es[0]] + es[1..];
    }
  }

  /** What a path means: each component names an entry of the directory so far. */
  function Resolve(cwd: Inode, cs: seq<string>): (r: Option<Inode>)
    decreases |cs|
  {
    if cs == [] then Some(cwd)
    else
      match cwd
      case File(_) => None
      case Dir(_, es) =>
        match Find(es, cs[0])
        case None => None
        case Some(n) => Resolve(n, cs[1..])
  }

  /** n is the inode of the last entry with this name. */
  ghost predicate LastNamed(dir: Inode, name: string, n: Inode) {
    && dir.Dir?
    && exists i :: 0 <= i < |dir.entries| && dir.entries[i] == DirEntry(name, n)
                   && forall j :: i < j < |dir.entries| ==> dir.entries[j].name != name
  }

  /** The inodes that a path goes through. */
  ghost predicate Trail(cwd: Inode, cs: seq<string>, ns: seq<Inode>) {
    && |ns| == |cs| + 1 && ns[0] == cwd
    && forall k :: 0 <= k < |cs| ==> LastNamed(ns[k], cs[k], ns[k + 1])
  }

  lemma {:induction false} FindIsLast(id: nat, es: seq<DirEntry>, name: string, n: Inode)
    ensures Find(es, name) == Some(n) <==> LastNamed(Dir(id, es), name, n)
    decreases |es|
  {
    if es != [] {
      FindIsLast(id, es[1..], name, n);
      FindName(es[1..], name);
      if Find(es[1..], name) == Some(n) {
        var i :| 0 <= i < |es[1..]| && es[1..][i] == DirEntry(name, n)
                 && forall j :: i < j < |es[1..]| ==> es[1..][j].name != name;
        assert es[i + 1] == DirEntry(name, n);
        assert forall j :: i + 1 < j < |es| ==> es[j] == es[1..][j - 1];
      } else if Find(es[1..], name).None? && es[0] == DirEntry(name, n) {
        assert forall j :: 0 < j < |es| ==> es[j] == es[1..][j - 1];
      }
      if LastNamed(Dir(id, es), name, n) {
        var i :| 0 <= i < |es| && es[i] == DirEntry(name, n) && forall j :: i < j < |es| ==> es[j].name != name;
        assert forall j :: 0 <= j < |es[1..]| ==> es[1..][j] == es[j + 1];
        if i > 0 {
          assert es[1..][i - 1] == DirEntry(name, n);
        }
      }
    }
  }

  /** A path resolves to the end of its trail, and to nothing if it has none. */
  lemma ResolveIff(cwd: Inode, cs: seq<string>, n: Inode)
    ensures Resolve(cwd, cs) == Some(n) <==> exists ns :: Trail(cwd, cs, ns) && ns[|cs|] == n
  {
    if Resolve(cwd, cs) == Some(n) {
      var ns := TrailOf(cwd, cs);
    }
    forall ns | Trail(cwd, cs, ns) && ns[|cs|] == n
      ensures Resolve(cwd, cs) == Some(n)
    {
      TrailResolves(cwd, cs, ns);
    }
  }

  lemma {:induction false} TrailOf(cwd: Inode, cs: seq<string>) returns (ns: seq<Inode>)
    requires Resolve(cwd, cs).Some?
    ensures Trail(cwd, cs, ns) && Resolve(cwd, cs) == Some(ns[|cs|])
    decreases |cs|
  {
    hide LastNamed, Find;
    ns := [cwd];
    if cs != [] {
      var m := Find(cwd.entries, cs[0]).value;
      FindIsLast(cwd.id, cwd.entries, cs[0], m);
      var rest := TrailOf(m, cs[1..]);
      ns := [cwd] + rest;
      forall k | 0 <= k < |cs|
        ensures LastNamed(ns[k], cs[k], ns[k + 1])
      {
        if k > 0 {
          assert LastNamed(rest[k - 1], cs[1..][k - 1], rest[k]);
        }
      }
    }
  }

  lemma {:induction false} TrailResolves(cwd: Inode, cs: seq<string>, ns: seq<Inode>)
    requires Trail(cwd, cs, ns)
    ensures Resolve(cwd, cs) == Some(ns[|cs|])
    decreases |cs|
  {
    if cs != [] {
      assert LastNamed(ns[0], cs[0], ns[1]);
      FindIsLast(cwd.id, cwd.entries, cs[0], ns[1]);
      forall k | 0 <= k < |cs[1..]|
        ensures LastNamed(ns[1..][k], cs[1..][k], ns[1..][k + 1])
      {
        assert LastNamed(ns[k + 1], cs[k + 1], ns[k + 2]);
      }
      TrailResolves(ns[1], cs[1..], ns[1..]);
    }
  }

  /** What the loop computes: a component without an entry leaves the previous
      result in place. */
  function Walk(cwd: Inode, cs: seq<string>, result: Option<Inode>): (r: Option<Inode>)
    decreases |cs|
  {
    if cs == [] then result
    else if cwd.File? then None
    else
      var found := Find(cwd.entries, cs[0]);
      var next := if found.Some? then found else result;
      if next.None? then None else Walk(next.value, cs[1..], next)
  }

  /** A path whose components all exist is looked up correctly, whatever the result
      held before. */
  lemma {:induction false} ExistingPath(cwd: Inode, cs: seq<string>, result: Option<Inode>)
    requires Resolve(cwd, cs).Some? && (cs == [] ==> result == Some(cwd))
    ensures Walk(cwd, cs, result) == Resolve(cwd, cs)
    decreases |cs|
  {
    if cs != [] {
      var n := Find(cwd.entries, cs[0]).value;
      ExistingPath(n, cs[1..], Some(n));
    }
  }

  /** The components that have an entry, when the others are passed over. */
  function Present(cwd: Inode, cs: seq<string>): (r: seq<string>)
    ensures |r| <= |cs|
    decreases |cs|
  {
    if cs == [] then []
    else if cwd.File? then cs
    else
      match Find(cwd.entries, cs[0])
      case None => Present(cwd, cs[1..])
      case Some(n) => [cs[0]] + Present(n, cs[1..])
  }

  /** Below the first level, a missing component is passed over. */
  lemma {:induction false} MissingIsSkipped(cwd: Inode, cs: seq<string>)
    ensures Walk(cwd, cs, Some(cwd)) == Resolve(cwd, Present(cwd, cs))
    decreases |cs|
  {
    if cs != [] && cwd.Dir? {
      match Find(cwd.entries, cs[0]) {
        case None => MissingIsSkipped(cwd, cs[1..]);
        case Some(n) =>
          MissingIsSkipped(n, cs[1..]);
          assert ([cs[0]] + Present(n, cs[1..]))[1..] == Present(n, cs[1..]);
      }
    }
  }

  /** Even without its missing components the path goes on behind a file. */
  ghost predicate ThroughFile(cwd: Inode, cs: seq<string>) {
    exists k :: 0 <= k < |Present(cwd, cs)| && FileAt(cwd, Present(cwd, cs)[..k])
  }

  predicate FileAt(cwd: Inode, cs: seq<string>) {
    Resolve(cwd, cs).Some? && Resolve(cwd, cs).value.File?
  }

  lemma {:induction false} ThroughFileIff(cwd: Inode, cs: seq<string>)
    ensures Resolve(cwd, Present(cwd, cs)).None? <==> ThroughFile(cwd, cs)
    decreases |cs|
  {
    var p := Present(cwd, cs);
    if cs == [] {
    } else if cwd.File? {
      assert FileAt(cwd, p[..0]);
    } else {
      match Find(cwd.entries, cs[0]) {
        case None => ThroughFileIff(cwd, cs[1..]);
        case Some(n) =>
          var q := Present(n, cs[1..]);
          ThroughFileIff(n, cs[1..]);
          assert p[1..] == q;
          forall k | 0 <= k < |q|
            ensures FileAt(cwd, p[..k + 1]) <==> FileAt(n, q[..k])
          {
            assert p[..k + 1][1..] == q[..k];
          }
          if k :| 0 <= k < |p| && FileAt(cwd, p[..k]) {
            assert k > 0 && FileAt(n, q[..k - 1]);
          }
          if k :| 0 <= k < |q| && FileAt(n, q[..k]) {
            assert FileAt(cwd, p[..k + 1]);
          }
      }
    }
  }

  /** What the first component of a call leads to: its entry or, if there is none,
      whatever the uninitialised result holds. */
  function Found(from: Inode, c: string, garbage: Option<Inode>): (r: Option<Inode>) {
    if from.File? then None
    else
      var f := Find(from.entries, c);
      if f.Some? then f else garbage
  }

  /** A call of the lookup goes where its first component leads, and from there
      passes over the components that are missing. */
  lemma WalkFromEntry(from: Inode, cs: seq<string>, garbage: Option<Inode>)
    requires cs != []
    ensures var n := Found(from, cs[0], garbage);
      Walk(from, cs, garbage) == if n.None? then None else Resolve(n.value, Present(n.value, cs[1..]))
  {
    var n := Found(from, cs[0], garbage);
    if n.Some? {
      MissingIsSkipped(n.value, cs[1..]);
    }
  }

  /** When the lookup of a path is right whatever the result held before. */
  ghost predicate Safe(from: Inode, cs: seq<string>)
    requires cs != []
  {
    || from.File?
    || (var f := Find(from.entries, cs[0]);
        f.Some? && (Resolve(f.value, cs[1..]).Some? || ThroughFile(f.value, cs[1..])))
  }

  /** A call is right exactly if the path is safe, or if its first component is
      missing and the garbage is NULL or has a file in the way of the rest. */
  lemma CallRightIff(from: Inode, cs: seq<string>, garbage: Option<Inode>)
    requires cs != []
    ensures Walk(from, cs, garbage) == Resolve(from, cs) <==>
      || Safe(from, cs)
      || (Found(from, cs[0], None).None? && (garbage.None? || ThroughFile(garbage.value, cs[1..])))
  {
    WalkFromEntry(from, cs, garbage);
    var n := Found(from, cs[0], garbage);
    if n.Some? {
      ThroughFileIff(n.value, cs[1..]);
      if Resolve(n.value, cs[1..]).Some? {
        ExistingPath(n.value, cs[1..], n);
        MissingIsSkipped(n.value, cs[1..]);
      }
    }
  }

  /** So the lookup of a path can be relied on, whatever the uninitialised result
      holds, exactly if it starts at a file, or its first component exists and from
      there on all the others do too or a file is in the way. */
  lemma LookupRightIff(from: Inode, cs: seq<string>)
    requires cs != []
    ensures (forall g :: Walk(from, cs, g) == Resolve(from, cs)) <==> Safe(from, cs)
  {
    forall g
      ensures Safe(from, cs) ==> Walk(from, cs, g) == Resolve(from, cs)
    {
      CallRightIff(from, cs, g);
    }
    var empty := Dir(0, []);
    CallRightIff(from, cs, Some(empty));
    NothingPresent(empty, cs[1..]);
  }

  /** The result of a call: it goes where its first component leads, and from there
      passes over the components that are missing. For safe paths that is where the
      path resolves to, and otherwise only if the garbage happens to do no harm. */
  ghost predicate LookedUp(from: Inode, cs: seq<string>, garbage: Option<Inode>, r: Option<Inode>) {
    if cs == [] then r == Some(from)
    else
      var n := Found(from, cs[0], garbage);
      && r == (if n.None? then None else Resolve(n.value, Present(n.value, cs[1..])))
      && (r == Resolve(from, cs) <==>
            || Safe(from, cs)
            || (Found(from, cs[0], None).None? && (garbage.None? || ThroughFile(garbage.value, cs[1..]))))
  }

  lemma WalkLooksUp(from: Inode, cs: seq<string>, garbage: Option<Inode>)
    requires cs != []
    ensures LookedUp(from, cs, garbage, Walk(from, cs, garbage))
  {
    WalkFromEntry(from, cs, garbage);
    CallRightIff(from, cs, garbage);
  }

  lemma LooksUpNothing(from: Inode, garbage: Option<Inode>)
    ensures LookedUp(from, [], garbage, Some(from))
  {
  }

  lemma {:induction false} NothingPresent(cwd: Inode, cs: seq<string>)
    requires cwd.Dir? && cwd.entries == []
    ensures Present(cwd, cs) == [] && !ThroughFile(cwd, cs)
    decreases |cs|
  {
    if cs != [] {
      NothingPresent(cwd, cs[1..]);
    }
  }

  /** A call that fails: /d/x, where d is a directory without an entry x, is not
      reported as missing but leads to d, whatever the result held before. */
  lemma MissingFileFindsDirectory(root: Inode, d: string, x: string, garbage: Option<Inode>)
    requires Names([d, x]) && root.Dir? && Find(root.entries, d).Some?
    requires var dir := Find(root.entries, d).value; dir.Dir? && Find(dir.entries, x).None?
    ensures var cs := Components("/" + d + "/" + x, 1);
      Resolve(root, cs).None? && Walk(root, cs, garbage) == Find(root.entries, d)
  {
    var path := "/" + d + "/" + x;
    assert [d, x][1..] == [x] && Join([x]) == x;
    assert path[1..] == Join([d, x]) + "";
    ComponentsOfJoin(path, 1, [d, x], "");
    var dir := Find(root.entries, d).value;
    WalkFromEntry(root, [d, x], garbage);
    assert Present(dir, [x]) == Present(dir, []) == [];
    assert Resolve(dir, [x]).None?;
  }

  // ----- the code -----

  /** copy_path_item: the component at `at`, terminated, and its length. */
  method CopyPathItem(path: string, at: nat, dst: array<char>) returns (i: nat)
    requires at <= |path| && '\0' !in path && ItemEnd(path, at) - at < dst.Length
    modifies dst
    ensures at + i == ItemEnd(path, at)
    ensures '\0' in dst[..] && Until(dst[..], '\0') == path[at..at + i]
  {
    i := 0;
    ghost var end := ItemEnd(path, at);
    while at + i < |path| && path[at + i] != '/'
      invariant at + i <= end && ItemEnd(path, at + i) == end
      invariant dst[..i] == path[at..at + i]
      decreases |path| - (at + i)
    {
      dst[i] := path[at + i];
      i := i + 1;
    }
    dst[i] := '\0';
    Terminated(dst[..], i, path[at..at + i]);
  }

  lemma Terminated(s: seq<char>, i: nat, t: string)
    requires i < |s| && s[..i] == t && s[i] == '\0' && '\0' !in t
    ensures '\0' in s && Until(s, '\0') == t
  {
    assert s == t + s[i..];
    UntilOf(t, s[i..], '\0');
  }

  class PathSearch {
    const name: array<char>
    var result: Option<Inode>
    /** The inodes given back through their free method. */
    ghost var freed: seq<Inode>

    constructor (result: Option<Inode>)
      ensures this.result == result && name.Length == PATH_ITEM && fresh(name) && freed == []
    {
      name := new char[PATH_ITEM](_ => '\0');
      this.result := result;
      freed := [];
    }

    /** path_cb: an inode is the result or is freed. */
    method PathCb(entName: array<char>, inode: Inode)
      requires '\0' in entName[..] && '\0' in name[..]
      modifies this
      ensures if Until(entName[..], '\0') == Until(name[..], '\0') then result == Some(inode) && freed == old(freed)
              else result == old(result) && freed == old(freed) + [inode]
    {
      var d := Strcmp(entName, name);
      if d == 0 {
        result := Some(inode);
      } else {
        freed := freed + [inode];
      }
    }

    /** readdir with path_cb: the callback on every entry in turn. */
    method Search(entries: seq<DirEntry>)
      requires '\0' in name[..] && forall i :: 0 <= i < |entries| ==> '\0' !in entries[i].name
      modifies this
      ensures var f := Find(entries, Until(name[..], '\0')); result == if f.Some? then f else old(result)
      ensures freed == old(freed) + Others(entries, Until(name[..], '\0'))
    {
      hide Until, Find, Others;
      var k := 0;
      ghost var item := Until(name[..], '\0');
      assert entries[..0] == [];
      FindNothing(item);
      while k < |entries|
        invariant k <= |entries|
        invariant var f := Find(entries[..k], item); result == if f.Some? then f else old(result)
        invariant freed == old(freed) + Others(entries[..k], item)
      {
        var e := entries[k];
        var entName := new char[|e.name| + 1](i requires 0 <= i => if i < |e.name| then e.name[i] else '\0');
        assert entName[..] == e.name + ['\0'];
        UntilOf(e.name, ['\0'], '\0');
        assert entName[..][|e.name|] == '\0' && Until(entName[..], '\0') == e.name;
        FindAppend(entries[..k], e, item);
        assert entries[..k + 1] == entries[..k] + [e];
        PathCb(entName, e.inode);
        k := k + 1;
      }
      assert entries[..k] == entries;
    }
  }

  lemma FindNothing(name: string)
    ensures Find([], name) == None && Others([], name) == []
  {
  }

  lemma {:induction false} FindAppend(es: seq<DirEntry>, e: DirEntry, name: string)
    ensures Find(es + [e], name) == if e.name == name then Some(e.inode) else Find(es, name)
    ensures Others(es + [e], name) == Others(es, name) + if e.name == name then [] else [e.inode]
    decreases |es|
  {
    if es == [] {
      assert [e][1..] == [];
    } else {
      assert (es + [e])[1..] == es[1..] + [e];
      FindAppend(es[1..], e, name);
    }
  }

  /** Every name in the tree can be terminated. */
  ghost predicate Plain(n: Inode) {
    n.Dir? ==> forall e :: e in n.entries ==> '\0' !in e.name && Plain(e.inode)
  }

  /** Every component fits path_item. */
  predicate ItemsFit(path: string, i: nat)
    requires i <= |path|
    decreases |path| - i
  {
    i < |path| ==>
      && ItemEnd(path, i) - i < PATH_ITEM
      && (ItemEnd(path, i) < |path| ==> ItemsFit(path, ItemEnd(path, i) + 1))
  }

  lemma WalkStep(path: string, at: nat, dir: Inode, result: Option<Inode>)
    requires at < |path| && ItemsFit(path, at) && Plain(dir)
    ensures var j := ItemEnd(path, at);
      && j - at < PATH_ITEM && (j < |path| ==> ItemsFit(path, j + 1)) && Components(path, at) != []
      && (dir.File? ==> Walk(dir, Components(path, at), result) == None)
      && (dir.Dir? ==>
            var f := Find(dir.entries, path[at..j]);
            var next := if f.Some? then f else result;
            && (f.Some? ==> Plain(f.value))
            && (forall i :: 0 <= i < |dir.entries| ==> '\0' !in dir.entries[i].name)
            && Walk(dir, Components(path, at), result)
               == if next.None? then None
                  else if j == |path| then next
                  else Walk(next.value, Components(path, j + 1), next))
  {
    ComponentsHead(path, at);
    hide ItemEnd, Plain, Find, Components;
    if dir.Dir? {
      PlainEntries(dir, Components(path, at)[0]);
    }
  }

  lemma ComponentsHead(path: string, at: nat)
    requires at < |path|
    ensures var j := ItemEnd(path, at);
      && Components(path, at) != [] && Components(path, at)[0] == path[at..j]
      && Components(path, at)[1..] == if j == |path| then [] else Components(path, j + 1)
  {
    hide ItemEnd;
  }

  lemma PlainEntries(dir: Inode, name: string)
    requires dir.Dir? && Plain(dir)
    ensures forall i :: 0 <= i < |dir.entries| ==> '\0' !in dir.entries[i].name
    ensures Find(dir.entries, name).Some? ==> Plain(Find(dir.entries, name).value)
  {
    hide Find;
    FindPlain(dir.entries, name);
  }

  lemma NothingToWalk(path: string, dir: Inode, result: Option<Inode>)
    ensures Walk(dir, Components(path, |path|), result) == result
  {
  }

  lemma {:induction false} FindPlain(es: seq<DirEntry>, name: string)
    requires forall e :: e in es ==> Plain(e.inode)
    ensures Find(es, name).Some? ==> Plain(Find(es, name).value)
    decreases |es|
  {
    hide Plain;
    if es != [] {
      FindPlain(es[1..], name);
    }
  }

  /** FS_inode_for_path; `garbage` is what the uninitialised result holds. */
  method InodeForPath(path: string, cwd: Inode, root: Inode, garbage: Option<Inode>) returns (r: Option<Inode>)
    requires '\0' !in path && Plain(cwd) && Plain(root)
    requires garbage.Some? ==> Plain(garbage.value)
    requires ItemsFit(path, if path != "" && path[0] == '/' then 1 else 0)
    ensures var absolute := path != "" && path[0] == '/';
      var from, cs := if absolute then root else cwd, Components(path, if absolute then 1 else 0);
      LookedUp(from, cs, garbage, r)
  {
    hide Walk, Components, ItemEnd, Find, Until, LookedUp, Plain, ItemsFit;
    var at, dir := 0, cwd;
    NoComponents(path);
    LooksUpNothing(cwd, garbage);
    LooksUpNothing(root, garbage);
    if path != "" && path[0] == '/' {
      at, dir := 1, root;
    }
    if at == |path| {
      return Some(dir);
    }
    var search := new PathSearch(garbage);
    ghost var whole := Walk(dir, Components(path, at), garbage);
    WalkStep(path, at, dir, garbage);
    WalkLooksUp(dir, Components(path, at), garbage);
    while at < |path|
      invariant at <= |path| && ItemsFit(path, at) && Plain(dir)
      invariant search.result.Some? ==> Plain(search.result.value)
      invariant fresh(search) && fresh(search.name) && search.name.Length == PATH_ITEM
      invariant Walk(dir, Components(path, at), search.result) == whole
      decreases |path| - at
    {
      WalkStep(path, at, dir, search.result);
      var offset := CopyPathItem(path, at, search.name);
      if dir.File? {
        return None;
      }
      search.Search(dir.entries);
      if search.result.None? {
        return None;
      }
      if at + offset == |path| {
        break;
      }
      dir := search.result.value;
      at := at + offset + 1;
    }
    NothingToWalk(path, dir, search.result);
    r := search.result;
  }
}
