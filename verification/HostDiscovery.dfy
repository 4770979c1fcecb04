// Reading host aliases from an OpenSSH configuration and everything it includes.

module HostDiscovery {
  import opened Foundations

  const MAX_INCLUDED_FILES: nat := 128

  // One line after shell-like splitting.
  datatype Line =
    | BadQuoting
    | HostLine(values: seq<string>)
    | IncludeLine(patterns: seq<string>)
    | OtherLine

  // What opening a path shows.
  datatype Node = Missing | TooLarge | Unreadable | Config(lines: seq<Line>)

  // The file system: the node at a path, and the regular files a pattern
  // expands to, sorted. Paths are absolute, so a path is its own identity.
  datatype Disk = Disk(node: string -> Node, expand: string -> seq<string>)

  const WILDCARDS: string := "*?![]"

  // `_is_literal_alias`
  predicate IsLiteralAlias(value: string) {
    && value != ""
    && value[0] != '-' && value[0] != '!'
    && (forall i | 0 <= i < |value| :: value[i] !in WILDCARDS)
    && |value| <= 255
    && (IsAlphanumeric(value[0]) || value[0] in "_.")
    && forall i | 0 <= i < |value| :: IsAlphanumeric(value[i]) || value[i] in "_.@:-"
  }

  function Lines(disk: Disk, path: string): seq<Line> {
    match disk.node(path)
    case Config(lines) => lines
    case _ => []
  }

  // A file the traversal reads without raising.
  predicate Healthy(disk: Disk, path: string) {
    match disk.node(path)
    case Missing => true
    case TooLarge => false
    case Unreadable => false
    case Config(lines) => forall i | 0 <= i < |lines| :: lines[i] != BadQuoting
  }

  function PatternTargets(disk: Disk, patterns: seq<string>): set<string> {
    set i, j | 0 <= i < |patterns| && 0 <= j < |disk.expand(patterns[i])| :: disk.expand(patterns[i])[j]
  }

  function LineTargets(disk: Disk, line: Line): set<string> {
    match line
    case IncludeLine(patterns) => PatternTargets(disk, patterns)
    case _ => {}
  }

  function LineAliases(line: Line): set<string> {
    match line
    case HostLine(values) => set i | 0 <= i < |values| && IsLiteralAlias(values[i]) :: values[i]
    case _ => {}
  }

  // The files a file includes.
  function Targets(disk: Disk, path: string): set<string> {
    set i, t | 0 <= i < |Lines(disk, path)| && t in LineTargets(disk, Lines(disk, path)[i]) :: t
  }

  // The literal aliases a file declares.
  function FileAliases(disk: Disk, path: string): set<string> {
    set i, a | 0 <= i < |Lines(disk, path)| && a in LineAliases(Lines(disk, path)[i]) :: a
  }

  // The paths that patterns and lines include, in order and with repetitions.
  function PatternIncludes(disk: Disk, patterns: seq<string>): seq<string> {
    if patterns == [] then [] else disk.expand(patterns[0]) + PatternIncludes(disk, patterns[1..])
  }

  function Includes(disk: Disk, lines: seq<Line>): seq<string> {
    if lines == [] then []
    else
      (match lines[0]
       case IncludeLine(patterns) => PatternIncludes(disk, patterns)
       case _ => [])
      + Includes(disk, lines[1..])
  }

  // Whether files can be read one after the other from the front of a list of
  // pending paths, where each file read puts what it includes in its place.
  predicate Walks(disk: Disk, visited: set<string>, pending: seq<string>)
    decreases if |visited| < MAX_INCLUDED_FILES then MAX_INCLUDED_FILES - |visited| else 0, |pending|
  {
    if pending == [] then true
    else if |visited| >= MAX_INCLUDED_FILES then false
    else if pending[0] in visited then Walks(disk, visited, pending[1..])
    else
      && Healthy(disk, pending[0])
      && Walks(disk, visited + {pending[0]}, Includes(disk, Lines(disk, pending[0])) + pending[1..])
  }

  // What is still pending when 128 files have been met, readable or not.
  function LeftAtCap(disk: Disk, visited: set<string>, pending: seq<string>): seq<string>
    decreases if |visited| < MAX_INCLUDED_FILES then MAX_INCLUDED_FILES - |visited| else 0, |pending|
  {
    if pending == [] || |visited| >= MAX_INCLUDED_FILES then pending
    else if pending[0] in visited then LeftAtCap(disk, visited, pending[1..])
    else LeftAtCap(disk, visited + {pending[0]}, Includes(disk, Lines(disk, pending[0])) + pending[1..])
  }

  // `trail` follows Include from its first path to its last.
  ghost predicate Trail(disk: Disk, trail: seq<string>) {
    trail != [] && forall i | 0 <= i < |trail| - 1 :: trail[i + 1] in Targets(disk, trail[i])
  }

  ghost predicate Reachable(disk: Disk, from: string, to: string) {
    exists trail :: Trail(disk, trail) && trail[0] == from && trail[|trail| - 1] == to
  }

  lemma ReachesItself(disk: Disk, path: string)
    ensures Reachable(disk, path, path)
  {
    assert Trail(disk, [path]) && [path][0] == path;
  }

  lemma ReachesThrough(disk: Disk, from: string, next: string, to: string)
    requires next in Targets(disk, from) && Reachable(disk, next, to)
    ensures Reachable(disk, from, to)
  {
    var trail :| Trail(disk, trail) && trail[0] == next && trail[|trail| - 1] == to;
    var longer := [from] + trail;
    assert Trail(disk, longer) by {
      forall i | 0 <= i < |longer| - 1 ensures longer[i + 1] in Targets(disk, longer[i]) {
        if i > 0 {
          assert longer[i + 1] == trail[i - 1 + 1] && longer[i] == trail[i - 1];
        }
      }
    }
  }

  ghost predicate Closed(disk: Disk, files: set<string>) {
    forall p | p in files :: Targets(disk, p) <= files
  }

  // A closed set holds everything reachable from its members.
  lemma ClosedHoldsReachable(disk: Disk, files: set<string>, from: string, to: string)
    requires Closed(disk, files) && from in files && Reachable(disk, from, to)
    ensures to in files
  {
    var trail :| Trail(disk, trail) && trail[0] == from && trail[|trail| - 1] == to;
    var i := 0;
    while i < |trail| - 1
      invariant 0 <= i < |trail| && trail[i] in files
    {
      assert trail[i + 1] in Targets(disk, trail[i]);
      i := i + 1;
    }
  }

  // Everything newly visited was read without error and its targets visited.
  ghost predicate Explored(disk: Disk, before: set<string>, after: set<string>) {
    before <= after && forall q | q in after - before :: Healthy(disk, q) && Targets(disk, q) <= after
  }

  // Everything newly visited is reached from one of the given paths.
  ghost predicate ReachedFrom(disk: Disk, from: set<string>, before: set<string>, after: set<string>) {
    forall q | q in after - before :: exists p :: p in from && Reachable(disk, p, q)
  }

  ghost predicate Collected(
    disk: Disk, before: set<string>, after: set<string>, aliasesBefore: set<string>, aliases: set<string>
  )
  {
    forall a :: a in aliases <==> a in aliasesBefore || exists q :: q in after - before && a in FileAliases(disk, q)
  }

  // The aliases of the first `n` lines of a file, and of what has been visited
  // since.
  ghost predicate Gathered(
    disk: Disk, lines: seq<Line>, n: nat, before: set<string>, after: set<string>, aliasesBefore: set<string>,
    aliases: set<string>
  )
    requires n <= |lines|
  {
    forall a :: a in aliases <==> a in aliasesBefore
                                  || (exists i :: 0 <= i < n && a in LineAliases(lines[i]))
                                  || exists q :: q in after - before && a in FileAliases(disk, q)
  }

  lemma GatherLine(
    disk: Disk, lines: seq<Line>, n: nat, before: set<string>, middle: set<string>, after: set<string>,
    aliasesBefore: set<string>, aliasesMiddle: set<string>, aliases: set<string>
  )
    requires n < |lines| && before <= middle <= after
    requires Gathered(disk, lines, n, before, middle, aliasesBefore, aliasesMiddle)
    requires Collected(disk, middle, after, aliasesMiddle + LineAliases(lines[n]), aliases)
    ensures Gathered(disk, lines, n + 1, before, after, aliasesBefore, aliases)
  {
    assert forall q :: q in after - before <==> q in middle - before || q in after - middle;
  }

  lemma GatherFile(
    disk: Disk, path: string, before: set<string>, after: set<string>, aliasesBefore: set<string>,
    aliases: set<string>
  )
    requires path !in before && path in after
    requires Gathered(disk, Lines(disk, path), |Lines(disk, path)|, before + {path}, after, aliasesBefore, aliases)
    ensures Collected(disk, before, after, aliasesBefore, aliases)
  {
    assert forall q :: q in after - before <==> q == path || q in after - (before + {path});
  }

  ghost predicate Stuck(disk: Disk, visited: set<string>) {
    |visited| >= MAX_INCLUDED_FILES || exists q :: q in visited && !Healthy(disk, q)
  }

  // The two sets that the recursive calls share and mutate.
  class Traversal {
    const disk: Disk
    var visited: set<string>
    var aliases: set<string>

    constructor (disk: Disk)
      ensures this.disk == disk && visited == {} && aliases == {}
    {
      this.disk := disk;
      visited, aliases := {}, {};
    }

    // `_read`
    method Read(path: string, ghost rest: seq<string>) returns (ok: bool)
      requires |visited| <= MAX_INCLUDED_FILES
      modifies this
      decreases MAX_INCLUDED_FILES - |visited|, 0
      ensures old(visited) <= visited && |visited| <= MAX_INCLUDED_FILES
      ensures ReachedFrom(disk, {path}, old(visited), visited)
      ensures ok ==> path in visited
                     && Explored(disk, old(visited), visited)
                     && Collected(disk, old(visited), visited, old(aliases), aliases)
      ensures !ok ==> Stuck(disk, visited)
      ensures Walks(disk, old(visited), [path] + rest) == (ok && Walks(disk, visited, rest))
    {
      assert ([path] + rest)[1..] == rest;
      if |visited| >= MAX_INCLUDED_FILES {
        return false;
      }
      if path in visited {
        return true;
      }
      visited := visited + {path};
      ReachesItself(disk, path);
      match disk.node(path) {
        case Missing =>
          ok := true;
          assert Includes(disk, Lines(disk, path)) + rest == rest;
        case TooLarge =>
          ok := false;
        case Unreadable =>
          ok := false;
        case Config(lines) =>
          ok := ReadLines(path, lines, rest);
          if ok {
            GatherFile(disk, path, old(visited), visited, old(aliases), aliases);
          }
      }
      forall q | q in visited - old(visited) ensures exists p :: p in {path} && Reachable(disk, p, q) {
        assert path in {path};
        assert q == path || q in visited - (old(visited) + {path});
      }
    }

    // The loop of `_read` over the lines of a file it has just marked visited.
    method ReadLines(path: string, lines: seq<Line>, ghost rest: seq<string>) returns (ok: bool)
      requires |visited| <= MAX_INCLUDED_FILES && path in visited
      requires disk.node(path) == Config(lines)
      modifies this
      decreases MAX_INCLUDED_FILES - |visited|, 2
      ensures old(visited) <= visited && |visited| <= MAX_INCLUDED_FILES
      ensures ReachedFrom(disk, {path}, old(visited), visited)
      ensures ok ==> Healthy(disk, path) && Targets(disk, path) <= visited
                     && Explored(disk, old(visited), visited)
                     && Gathered(disk, Lines(disk, path), |lines|, old(visited), visited, old(aliases), aliases)
      ensures !ok ==> Stuck(disk, visited)
      ensures (Healthy(disk, path) && Walks(disk, old(visited), Includes(disk, lines) + rest))
              == (ok && Walks(disk, visited, rest))
    {
      for n := 0 to |lines|
        invariant Walks(disk, old(visited), Includes(disk, lines) + rest)
               == Walks(disk, visited, Includes(disk, lines[n..]) + rest)
        invariant old(visited) <= visited && |visited| <= MAX_INCLUDED_FILES
        invariant ReachedFrom(disk, {path}, old(visited), visited)
        invariant Explored(disk, old(visited), visited)
        invariant forall i | 0 <= i < n :: lines[i] != BadQuoting && LineTargets(disk, lines[i]) <= visited
        invariant Gathered(disk, lines, n, old(visited), visited, old(aliases), aliases)
      {
        ghost var visitedBefore, aliasesBefore := visited, aliases;
        ghost var later := Includes(disk, lines[n + 1..]) + rest;
        IncludesStep(disk, lines, n, rest);
        match lines[n] {
          case BadQuoting =>
            assert !Healthy(disk, path);
            return false;
          case HostLine(values) =>
            aliases := aliases + LineAliases(lines[n]);
          case IncludeLine(patterns) =>
            assert forall t | t in PatternTargets(disk, patterns) :: t in Targets(disk, path) by {
              assert LineTargets(disk, lines[n]) == PatternTargets(disk, patterns);
              assert Lines(disk, path)[n] == lines[n];
            }
            SubsetCardinality(old(visited), visited);
            var read := ReadPatterns(patterns, later);
            StepReaches(disk, path, PatternTargets(disk, patterns), old(visited), visitedBefore, visited);
            if !read {
              return false;
            }
          case OtherLine =>
        }
        GatherLine(disk, lines, n, old(visited), visitedBefore, visited, old(aliases), aliasesBefore, aliases);
      }
      assert Lines(disk, path) == lines;
      assert Includes(disk, lines[|lines|..]) + rest == rest;
      ok := true;
    }

    // The inner loop over the patterns of one Include line.
    method ReadPatterns(patterns: seq<string>, ghost rest: seq<string>) returns (ok: bool)
      requires |visited| <= MAX_INCLUDED_FILES
      modifies this
      decreases MAX_INCLUDED_FILES - |visited|, 1, |patterns|
      ensures old(visited) <= visited && |visited| <= MAX_INCLUDED_FILES
      ensures ReachedFrom(disk, PatternTargets(disk, patterns), old(visited), visited)
      ensures ok ==> PatternTargets(disk, patterns) <= visited
                     && Explored(disk, old(visited), visited)
                     && Collected(disk, old(visited), visited, old(aliases), aliases)
      ensures !ok ==> Stuck(disk, visited)
      ensures Walks(disk, old(visited), PatternIncludes(disk, patterns) + rest) == (ok && Walks(disk, visited, rest))
    {
      for n := 0 to |patterns|
        invariant Walks(disk, old(visited), PatternIncludes(disk, patterns) + rest)
               == Walks(disk, visited, PatternIncludes(disk, patterns[n..]) + rest)
        invariant old(visited) <= visited && |visited| <= MAX_INCLUDED_FILES
        invariant ReachedFrom(disk, PatternTargets(disk, patterns), old(visited), visited)
        invariant Explored(disk, old(visited), visited)
        invariant Collected(disk, old(visited), visited, old(aliases), aliases)
        invariant forall i, t | 0 <= i < n && t in disk.expand(patterns[i]) :: t in visited
      {
        ghost var before := visited;
        SubsetCardinality(old(visited), visited);
        ghost var later := PatternIncludes(disk, patterns[n + 1..]) + rest;
        PatternsStep(disk, patterns, n, rest);
        var read := ReadIncludes(patterns[n], later);
        ReachMore(disk, PatternTargets(disk, patterns), Elements(disk.expand(patterns[n])), old(visited), before,
                  visited);
        if !read {
          return false;
        }
      }
      assert PatternIncludes(disk, patterns[|patterns|..]) + rest == rest;
      ok := true;
    }

    // `_read_includes`
    method ReadIncludes(pattern: string, ghost rest: seq<string>) returns (ok: bool)
      requires |visited| <= MAX_INCLUDED_FILES
      modifies this
      decreases MAX_INCLUDED_FILES - |visited|, 1, 0
      ensures old(visited) <= visited && |visited| <= MAX_INCLUDED_FILES
      ensures ReachedFrom(disk, Elements(disk.expand(pattern)), old(visited), visited)
      ensures ok ==> Elements(disk.expand(pattern)) <= visited
                     && Explored(disk, old(visited), visited)
                     && Collected(disk, old(visited), visited, old(aliases), aliases)
      ensures !ok ==> Stuck(disk, visited)
      ensures Walks(disk, old(visited), disk.expand(pattern) + rest) == (ok && Walks(disk, visited, rest))
    {
      var matches := disk.expand(pattern);
      for n := 0 to |matches|
        invariant Walks(disk, old(visited), matches + rest) == Walks(disk, visited, matches[n..] + rest)
        invariant old(visited) <= visited && |visited| <= MAX_INCLUDED_FILES
        invariant ReachedFrom(disk, Elements(matches), old(visited), visited)
        invariant Explored(disk, old(visited), visited)
        invariant Collected(disk, old(visited), visited, old(aliases), aliases)
        invariant forall i | 0 <= i < n :: matches[i] in visited
      {
        assert matches[n] in Elements(matches);
        ghost var before := visited;
        SubsetCardinality(old(visited), visited);
        assert matches[n..] + rest == [matches[n]] + (matches[n + 1..] + rest);
        var read := Read(matches[n], matches[n + 1..] + rest);
        ReachMore(disk, Elements(matches), {matches[n]}, old(visited), before, visited);
        if !read {
          return false;
        }
      }
      assert matches[|matches|..] + rest == rest;
      ok := true;
    }
  }

  lemma IncludesStep(disk: Disk, lines: seq<Line>, n: nat, rest: seq<string>)
    requires n < |lines|
    ensures var later := Includes(disk, lines[n + 1..]) + rest;
            Includes(disk, lines[n..]) + rest
            == if lines[n].IncludeLine? then PatternIncludes(disk, lines[n].patterns) + later else later
  {
    assert lines[n..][1..] == lines[n + 1..];
  }

  lemma PatternsStep(disk: Disk, patterns: seq<string>, n: nat, rest: seq<string>)
    requires n < |patterns|
    ensures PatternIncludes(disk, patterns[n..]) + rest
         == disk.expand(patterns[n]) + (PatternIncludes(disk, patterns[n + 1..]) + rest)
  {
    assert patterns[n..][1..] == patterns[n + 1..];
  }

  lemma ReachMore(
    disk: Disk, from: set<string>, part: set<string>, start: set<string>, before: set<string>, after: set<string>
  )
    requires part <= from
    requires ReachedFrom(disk, from, start, before) && ReachedFrom(disk, part, before, after)
    ensures ReachedFrom(disk, from, start, after)
  {
    forall q | q in after - start ensures exists p :: p in from && Reachable(disk, p, q) {
      if q in before {
        assert q in before - start;
      } else {
        assert q in after - before;
        var p :| p in part && Reachable(disk, p, q);
      }
    }
  }

  // What the targets of a file reach, the file reaches.
  lemma StepReaches(
    disk: Disk, path: string, targets: set<string>, start: set<string>, before: set<string>, after: set<string>
  )
    requires targets <= Targets(disk, path)
    requires ReachedFrom(disk, {path}, start, before) && ReachedFrom(disk, targets, before, after)
    ensures ReachedFrom(disk, {path}, start, after)
  {
    forall q | q in after - start ensures exists p :: p in {path} && Reachable(disk, p, q) {
      if q in before {
        assert q in before - start;
      } else {
        assert q in after - before;
        var p :| p in targets && Reachable(disk, p, q);
        ReachesThrough(disk, path, p, q);
        assert path in {path};
      }
    }
  }

  // What `list_aliases` promises: on success the visited files are exactly those
  // reachable from the configuration, all readable, and the aliases exactly
  // their literal aliases; on failure some reachable file cannot be read, or
  // 128 files are reachable. It succeeds exactly when the files can be walked.
  ghost predicate Listed(disk: Disk, root: string, ok: bool, visited: set<string>, aliases: set<string>) {
    && ok == Walks(disk, {}, [root])
    && |visited| <= MAX_INCLUDED_FILES
    && (forall q | q in visited :: Reachable(disk, root, q))
    && (ok ==> forall q | Reachable(disk, root, q) :: q in visited && Healthy(disk, q))
    && (ok ==> forall a :: a in aliases <==> exists q :: Reachable(disk, root, q) && a in FileAliases(disk, q))
    && (!ok ==> |visited| == MAX_INCLUDED_FILES || exists q :: q in visited && !Healthy(disk, q))
  }

  method ListAliases(disk: Disk, root: string) returns (ok: bool, visited: set<string>, aliases: set<string>)
    ensures Listed(disk, root, ok, visited, aliases)
  {
    var traversal := new Traversal(disk);
    ok := traversal.Read(root, []);
    assert [root] + [] == [root];
    visited, aliases := traversal.visited, traversal.aliases;
    assert visited - {} == visited;
    if ok {
      assert Closed(disk, visited);
      forall q | Reachable(disk, root, q) ensures q in visited {
        ClosedHoldsReachable(disk, visited, root, q);
      }
    }
  }

  lemma {:induction false} PatternMember(disk: Disk, patterns: seq<string>, t: string)
    requires t in PatternIncludes(disk, patterns)
    ensures t in PatternTargets(disk, patterns)
  {
    if t in disk.expand(patterns[0]) {
      var j :| 0 <= j < |disk.expand(patterns[0])| && disk.expand(patterns[0])[j] == t;
    } else {
      PatternMember(disk, patterns[1..], t);
      var i, j :| 0 <= i < |patterns[1..]| && 0 <= j < |disk.expand(patterns[1..][i])|
                  && disk.expand(patterns[1..][i])[j] == t;
      assert patterns[1..][i] == patterns[i + 1];
    }
  }

  lemma {:induction false} IncludedBySome(disk: Disk, lines: seq<Line>, t: string) returns (i: nat)
    requires t in Includes(disk, lines)
    ensures i < |lines| && t in LineTargets(disk, lines[i])
  {
    if lines[0].IncludeLine? && t in PatternIncludes(disk, lines[0].patterns) {
      PatternMember(disk, lines[0].patterns, t);
      i := 0;
    } else {
      var k := IncludedBySome(disk, lines[1..], t);
      assert lines[1..][k] == lines[k + 1];
      i := k + 1;
    }
  }

  lemma IncludedAreReached(disk: Disk, root: string, path: string)
    requires Reachable(disk, root, path)
    ensures forall t | t in Includes(disk, Lines(disk, path)) :: Reachable(disk, root, t)
  {
    forall t | t in Includes(disk, Lines(disk, path)) ensures Reachable(disk, root, t) {
      var i := IncludedBySome(disk, Lines(disk, path), t);
      assert t in Targets(disk, path);
      ReachesOneMore(disk, root, path, t);
    }
  }

  lemma ReachesOneMore(disk: Disk, from: string, last: string, to: string)
    requires Reachable(disk, from, last) && to in Targets(disk, last)
    ensures Reachable(disk, from, to)
  {
    var trail :| Trail(disk, trail) && trail[0] == from && trail[|trail| - 1] == last;
    assert Trail(disk, trail + [to]) && (trail + [to])[0] == from && (trail + [to])[|trail|] == to;
  }

  // Among reachable files a walk ends exactly when all are readable, as far as
  // it meets them, and nothing is left at the cap.
  lemma {:induction false} WalkEnds(disk: Disk, root: string, visited: set<string>, pending: seq<string>)
    requires forall p | p in pending :: Reachable(disk, root, p)
    ensures Walks(disk, visited, pending) ==> LeftAtCap(disk, visited, pending) == []
    ensures (forall q | Reachable(disk, root, q) :: Healthy(disk, q)) && LeftAtCap(disk, visited, pending) == [] ==>
              Walks(disk, visited, pending)
    decreases if |visited| < MAX_INCLUDED_FILES then MAX_INCLUDED_FILES - |visited| else 0, |pending|
  {
    if pending != [] && |visited| < MAX_INCLUDED_FILES {
      assert forall p | p in pending[1..] :: p in pending;
      if pending[0] in visited {
        WalkEnds(disk, root, visited, pending[1..]);
      } else {
        IncludedAreReached(disk, root, pending[0]);
        WalkEnds(disk, root, visited + {pending[0]}, Includes(disk, Lines(disk, pending[0])) + pending[1..]);
      }
    }
  }

  // Exactly when a configuration can be listed: every file it reaches can be
  // read, and nothing is left to read once 128 files have been met.
  lemma ListedIff(disk: Disk, root: string, ok: bool, visited: set<string>, aliases: set<string>)
    requires Listed(disk, root, ok, visited, aliases)
    ensures ok <==> (forall q | Reachable(disk, root, q) :: Healthy(disk, q)) && LeftAtCap(disk, {}, [root]) == []
  {
    ReachesItself(disk, root);
    WalkEnds(disk, root, {}, [root]);
  }

  // The cap: a traversal of at most 127 files succeeds exactly when all of them
  // are readable, and one of more than 128 never succeeds. With exactly 128 it
  // matters whether anything is left after the last file, even one met before.
  lemma CapIsExact(disk: Disk, root: string, closure: set<string>, ok: bool, visited: set<string>, aliases: set<string>)
    requires forall q :: q in closure <==> Reachable(disk, root, q)
    requires Listed(disk, root, ok, visited, aliases)
    ensures |closure| < MAX_INCLUDED_FILES ==> (ok <==> forall q | q in closure :: Healthy(disk, q))
    ensures |closure| == MAX_INCLUDED_FILES ==>
              (ok <==> (forall q | q in closure :: Healthy(disk, q)) && LeftAtCap(disk, {}, [root]) == [])
    ensures |closure| > MAX_INCLUDED_FILES ==> !ok
  {
    ListedIff(disk, root, ok, visited, aliases);
    assert visited <= closure;
    SubsetCardinality(visited, closure);
    if ok {
      assert visited == closure;
    }
  }

  // ---- The input at the cap ----

  // The file names "/", "/a", "/aa", ..., by length.
  function NameOf(n: nat): (name: string)
    requires n > 0
    ensures |name| == n
  {
    "/" + seq(n - 1, _ => 'a')
  }

  // Each file includes the next one, up to the 128th, which includes itself again
  // or nothing.
  function Chain(again: bool): Disk {
    Disk(
      (path: string) =>
        if 0 < |path| < MAX_INCLUDED_FILES then Config([IncludeLine([NameOf(|path| + 1)])])
        else Config(if again then [IncludeLine([path])] else []),
      pattern => [pattern])
  }

  ghost function FirstNames(n: nat): set<string> {
    set i: nat | 0 < i <= n :: NameOf(i)
  }

  lemma {:induction false} FirstNamesCount(n: nat)
    ensures |FirstNames(n)| == n
  {
    if n > 0 {
      FirstNamesCount(n - 1);
      assert FirstNames(n) == FirstNames(n - 1) + {NameOf(n)};
      assert forall q | q in FirstNames(n - 1) :: |q| < n;
    }
  }

  // What the file of length `n` includes.
  function NextName(n: nat, again: bool): seq<string>
    requires n > 0
  {
    if n < MAX_INCLUDED_FILES then [NameOf(n + 1)] else if again then [NameOf(n)] else []
  }

  lemma OneInclude(disk: Disk, path: string)
    requires disk.expand(path) == [path]
    ensures Includes(disk, [IncludeLine([path])]) == [path]
    ensures LineTargets(disk, IncludeLine([path])) == {path}
  {
    assert PatternIncludes(disk, [path]) == [path] + PatternIncludes(disk, []);
    assert Includes(disk, [IncludeLine([path])]) == [path] + Includes(disk, []);
  }

  lemma ChainIncludes(again: bool, n: nat)
    requires 0 < n <= MAX_INCLUDED_FILES
    ensures Includes(Chain(again), Lines(Chain(again), NameOf(n))) == NextName(n, again)
    ensures Targets(Chain(again), NameOf(n)) == Elements(NextName(n, again))
    ensures Healthy(Chain(again), NameOf(n))
  {
    var disk, path := Chain(again), NameOf(n);
    if NextName(n, again) == [] {
      assert Lines(disk, path) == [];
    } else {
      assert Lines(disk, path) == [IncludeLine(NextName(n, again))];
      OneInclude(disk, NextName(n, again)[0]);
    }
  }

  // The walk along a chain, one file after the other.
  ghost predicate Chained(disk: Disk, again: bool) {
    forall n: nat | 0 < n <= MAX_INCLUDED_FILES ::
      Includes(disk, Lines(disk, NameOf(n))) == NextName(n, again)
  }

  lemma ChainStep(disk: Disk, again: bool, visited: set<string>, n: nat)
    requires Chained(disk, again) && |visited| == n < MAX_INCLUDED_FILES && NameOf(n + 1) !in visited
    ensures LeftAtCap(disk, visited, [NameOf(n + 1)])
            == LeftAtCap(disk, visited + {NameOf(n + 1)}, NextName(n + 1, again))
  {
    assert NextName(n + 1, again) + [NameOf(n + 1)][1..] == NextName(n + 1, again);
  }

  lemma LeftStops(disk: Disk, visited: set<string>, pending: seq<string>)
    requires |visited| >= MAX_INCLUDED_FILES
    ensures LeftAtCap(disk, visited, pending) == pending
  {
  }

  lemma {:induction false} ChainLeaves(disk: Disk, again: bool, visited: set<string>, n: nat)
    requires Chained(disk, again) && |visited| == n < MAX_INCLUDED_FILES
    requires forall q | q in visited :: |q| <= n
    ensures LeftAtCap(disk, visited, [NameOf(n + 1)]) == NextName(MAX_INCLUDED_FILES, again)
    decreases MAX_INCLUDED_FILES - n
  {
    ChainStep(disk, again, visited, n);
    if n + 1 < MAX_INCLUDED_FILES {
      ChainLeaves(disk, again, visited + {NameOf(n + 1)}, n + 1);
    } else {
      LeftStops(disk, visited + {NameOf(n + 1)}, NextName(n + 1, again));
    }
  }

  lemma {:induction false} ChainReaches(again: bool, n: nat)
    requires 0 < n <= MAX_INCLUDED_FILES
    ensures Reachable(Chain(again), NameOf(1), NameOf(n))
  {
    if n == 1 {
      ReachesItself(Chain(again), NameOf(1));
    } else {
      ChainReaches(again, n - 1);
      ChainIncludes(again, n - 1);
      assert NameOf(n) in Targets(Chain(again), NameOf(n - 1));
      ReachesOneMore(Chain(again), NameOf(1), NameOf(n - 1), NameOf(n));
    }
  }

  lemma ChainWalk(disk: Disk, again: bool)
    requires Chained(disk, again) && forall q | Reachable(disk, NameOf(1), q) :: Healthy(disk, q)
    ensures Walks(disk, {}, [NameOf(1)]) <==> !again
  {
    ChainLeaves(disk, again, {}, 0);
    ReachesItself(disk, NameOf(1));
    WalkEnds(disk, NameOf(1), {}, [NameOf(1)]);
  }

  // Two configurations of exactly 128 readable files: the one whose last file
  // includes nothing is listed, the one whose last file includes itself is
  // refused.
  lemma ChainAtCap(again: bool) returns (closure: set<string>)
    ensures |closure| == MAX_INCLUDED_FILES
    ensures forall q :: q in closure <==> Reachable(Chain(again), NameOf(1), q)
    ensures forall q | q in closure :: Healthy(Chain(again), q)
    ensures Walks(Chain(again), {}, [NameOf(1)]) <==> !again
  {
    closure := FirstNames(MAX_INCLUDED_FILES);
    FirstNamesCount(MAX_INCLUDED_FILES);
    forall q | q in closure
      ensures Targets(Chain(again), q) <= closure && Reachable(Chain(again), NameOf(1), q) && Healthy(Chain(again), q)
    {
      var n: nat :| 0 < n <= MAX_INCLUDED_FILES && q == NameOf(n);
      ChainIncludes(again, n);
      ChainReaches(again, n);
    }
    assert NameOf(1) in closure && Closed(Chain(again), closure);
    forall q | Reachable(Chain(again), NameOf(1), q) ensures q in closure {
      ClosedHoldsReachable(Chain(again), closure, NameOf(1), q);
    }
    assert Chained(Chain(again), again) by {
      forall n: nat | 0 < n <= MAX_INCLUDED_FILES
        ensures Includes(Chain(again), Lines(Chain(again), NameOf(n))) == NextName(n, again)
      {
        ChainIncludes(again, n);
      }
    }
    ChainWalk(Chain(again), again);
  }
}
