/**
 * The meaning of `execRecursive`: which commands the walk issues, in which
 * order, and what it reports. `WalkAll`/`WalkOne` follow the recursion over
 * the tree; `Linear` scans the depth-first listing `Flatten` of that tree;
 * `Expected` states the result in closed form. `WalkSpec` ties them together.
 */
module BatchApply {
  import opened Wrappers
  import opened Commands
  import opened FileTree

  /** What one walk over a batch is run with. */
  datatype Batch = Batch(binary: string, namespace: string, subcommand: string, order: Order, run: Executor)

  /**
   * Either the walk ran to its end, keeping the first failure it caught, or
   * it met a path that does not exist (`NoSuchFileException`) and stopped there.
   */
  datatype Outcome = Completed(error: Option<ClusterError>) | Aborted(missing: string)

  /** The commands issued, in order, and how the walk ended. */
  datatype Walk = Walk(trace: seq<Command>, outcome: Outcome)

  const Idle := Walk([], Completed(None))

  /** The command `execRecursive` issues for a descriptor file. */
  function FileCommand(b: Batch, path: string): (c: Command)
    ensures |c| == 6 && c[..3] == [b.binary, "--namespace", b.namespace]
    ensures c[3..] == [b.subcommand, "-f", path]
  {
    Namespaced(b.binary, b.namespace, [b.subcommand, "-f", path])
  }

  /** `if (error == null) error = e;`: an error once caught is never overwritten. */
  function FirstOf(e1: Option<ClusterError>, e2: Option<ClusterError>): (e: Option<ClusterError>)
    ensures e1.Some? ==> e == e1
    ensures e1.None? ==> e == e2
    ensures e.None? <==> e1.None? && e2.None?
  {
    if e1.Some? then e1 else e2
  }

  /** Running `next` after `acc`: nothing runs after an abort, and the earlier error wins. */
  function Combine(acc: Walk, next: Walk): Walk {
    match acc.outcome
    case Aborted(_) => acc
    case Completed(e1) =>
      match next.outcome
      case Aborted(p) => Walk(acc.trace + next.trace, Aborted(p))
      case Completed(e2) => Walk(acc.trace + next.trace, Completed(FirstOf(e1, e2)))
  }

  /** Whether the walk hands this node to the tool. */
  predicate Invoked(n: Node) {
    n.File? && IsYaml(n.name)
  }

  /** Every command in `trace` is `<subcommand> -f <path>` of this batch, for some path. */
  ghost predicate OnlyFileCommands(b: Batch, trace: seq<Command>) {
    forall c :: c in trace ==> exists p :: c == FileCommand(b, p)
  }

  /**
   * What the walk does at a node that it does not descend into: a descriptor
   * file is invoked once and its failure caught; a missing path aborts;
   * anything else is passed over.
   */
  function LeafStep(b: Batch, n: Node): (w: Walk)
    ensures Invoked(n) ==> w.trace == [FileCommand(b, n.absolutePath)]
    ensures !Invoked(n) ==> w.trace == []
    ensures w.outcome.Aborted? <==> n.Missing?
    ensures n.Missing? ==> w.outcome.missing == n.path
    ensures w.outcome.Completed? ==> w.outcome.error == FirstError(b.run, w.trace)
  {
    match n
    case File(name, _, absolutePath) =>
      if IsYaml(name) then
        var c := FileCommand(b, absolutePath);
        Walk([c], Completed(if b.run(c).Failed? then Some(b.run(c).error) else None))
      else Idle
    case Missing(_, path) => Walk([], Aborted(path))
    case _ => Idle
  }

  /**
   * `execRecursive(subcommand, files, cmp)`: the loop over `files`, in the
   * caller's order. It issues only file commands of the batch, and a walk
   * that completes reports the first failure among the commands it issued.
   */
  function WalkAll(b: Batch, files: seq<Node>): (w: Walk)
    ensures OnlyFileCommands(b, w.trace)
    ensures w.outcome.Completed? ==> w.outcome.error == FirstError(b.run, w.trace)
    decreases MaxHeight(files), 1, |files|
  {
    if files == [] then Idle
    else
      var acc := WalkAll(b, files[..|files| - 1]);
      var one := WalkOne(b, files[|files| - 1]);
      FirstErrorAppend(b.run, acc.trace, one.trace);
      Combine(acc, one)
  }

  /** One iteration of that loop: a listed directory is sorted and walked recursively. */
  function WalkOne(b: Batch, n: Node): (w: Walk)
    ensures OnlyFileCommands(b, w.trace)
    ensures w.outcome.Completed? ==> w.outcome.error == FirstError(b.run, w.trace)
    decreases Height(n), 0, 0
  {
    match n
    case Dir(_, _, children) =>
      var sorted := SortByName(b.order, children);
      MaxHeightOfPermutation(sorted, children);
      WalkAll(b, sorted)
    case _ => LeafStep(b, n)
  }

  /** The nodes the walk meets but does not descend into, in depth-first order. */
  function Flatten(order: Order, files: seq<Node>): seq<Node>
    decreases MaxHeight(files), 1, |files|
  {
    if files == [] then []
    else Flatten(order, files[..|files| - 1]) + FlattenOne(order, files[|files| - 1])
  }

  function FlattenOne(order: Order, n: Node): seq<Node>
    decreases Height(n), 0, 0
  {
    match n
    case Dir(_, _, children) =>
      var sorted := SortByName(order, children);
      MaxHeightOfPermutation(sorted, children);
      Flatten(order, sorted)
    case UnreadableDir(_, _) => []
    case _ => [n]
  }

  /** The reference scan: the per-node steps over a flat listing, one after the other. */
  function Linear(b: Batch, leaves: seq<Node>): Walk {
    if leaves == [] then Idle
    else Combine(Linear(b, leaves[..|leaves| - 1]), LeafStep(b, leaves[|leaves| - 1]))
  }

  /** The index of the first path that does not exist, or `|leaves|` if there is none. */
  function FirstMissing(leaves: seq<Node>): (k: nat)
    ensures k <= |leaves|
    ensures forall i :: 0 <= i < k ==> !leaves[i].Missing?
    ensures k < |leaves| ==> leaves[k].Missing?
  {
    if leaves == [] then 0
    else
      var k := FirstMissing(leaves[..|leaves| - 1]);
      if k < |leaves| - 1 then k
      else if leaves[|leaves| - 1].Missing? then |leaves| - 1
      else |leaves|
  }

  /** The positions of the descriptor files among `leaves`: each exactly once, in increasing order. */
  function YamlIndices(leaves: seq<Node>): (ix: seq<nat>)
    ensures forall j :: 0 <= j < |ix| ==> ix[j] < |leaves| && Invoked(leaves[ix[j]])
    ensures forall j, k :: 0 <= j < k < |ix| ==> ix[j] < ix[k]
    ensures forall i :: 0 <= i < |leaves| && Invoked(leaves[i]) ==> i in ix
  {
    if leaves == [] then []
    else
      var n := |leaves| - 1;
      var front := YamlIndices(leaves[..n]);
      assert forall i :: 0 <= i < n ==> leaves[..n][i] == leaves[i];
      front + (if Invoked(leaves[n]) then [n] else [])
  }

  /** `p` is the absolute path of some descriptor file among `leaves`. */
  ghost predicate DescriptorPath(leaves: seq<Node>, p: string) {
    exists i :: 0 <= i < |leaves| && Invoked(leaves[i]) && leaves[i].absolutePath == p
  }

  /** The absolute paths of the descriptor files among `leaves`, in order. */
  function YamlPaths(leaves: seq<Node>): (paths: seq<string>)
    ensures forall j :: 0 <= j < |paths| ==> DescriptorPath(leaves, paths[j])
    ensures forall i :: 0 <= i < |leaves| && Invoked(leaves[i]) ==> leaves[i].absolutePath in paths
    ensures |paths| == |YamlIndices(leaves)|
    ensures forall j :: 0 <= j < |paths| ==> paths[j] == leaves[YamlIndices(leaves)[j]].absolutePath
  {
    if leaves == [] then []
    else
      var n := |leaves| - 1;
      var last := leaves[n];
      var front := YamlPaths(leaves[..n]);
      var paths := front + (if Invoked(last) then [last.absolutePath] else []);
      PathsAtIndicesStep(leaves, front);
      PathsAtIndices(leaves, paths);
      paths
  }

  /** The paths at the descriptor positions of a listing, extended by its last node. */
  lemma PathsAtIndicesStep(leaves: seq<Node>, front: seq<string>)
    requires leaves != []
    requires var ix := YamlIndices(leaves[..|leaves| - 1]);
      |front| == |ix| && forall j :: 0 <= j < |front| ==> front[j] == leaves[..|leaves| - 1][ix[j]].absolutePath
    ensures var last := leaves[|leaves| - 1];
      var paths := front + (if Invoked(last) then [last.absolutePath] else []);
      |paths| == |YamlIndices(leaves)| &&
      forall j :: 0 <= j < |paths| ==> paths[j] == leaves[YamlIndices(leaves)[j]].absolutePath
  {
    var n := |leaves| - 1;
    var ix := YamlIndices(leaves[..n]);
    assert YamlIndices(leaves) == ix + (if Invoked(leaves[n]) then [n] else []);
    forall j | 0 <= j < |front| ensures leaves[..n][ix[j]] == leaves[ix[j]] {
    }
  }

  /** Paths taken at the descriptor positions are exactly the descriptors' paths. */
  lemma PathsAtIndices(leaves: seq<Node>, paths: seq<string>)
    requires |paths| == |YamlIndices(leaves)|
    requires forall j :: 0 <= j < |paths| ==> paths[j] == leaves[YamlIndices(leaves)[j]].absolutePath
    ensures forall j :: 0 <= j < |paths| ==> DescriptorPath(leaves, paths[j])
    ensures forall i :: 0 <= i < |leaves| && Invoked(leaves[i]) ==> leaves[i].absolutePath in paths
  {
    var ix := YamlIndices(leaves);
    forall j | 0 <= j < |paths|
      ensures DescriptorPath(leaves, paths[j])
    {
      assert Invoked(leaves[ix[j]]);
    }
    forall i | 0 <= i < |leaves| && Invoked(leaves[i])
      ensures leaves[i].absolutePath in paths
    {
      var j :| 0 <= j < |ix| && ix[j] == i;
      assert paths[j] == leaves[i].absolutePath;
    }
  }

  /** One command per path, in the same order. */
  function FileCommands(b: Batch, paths: seq<string>): (cs: seq<Command>)
    ensures |cs| == |paths|
    ensures forall i :: 0 <= i < |paths| ==> cs[i] == FileCommand(b, paths[i])
  {
    seq(|paths|, i requires 0 <= i < |paths| => FileCommand(b, paths[i]))
  }

  /** The first failure the executor reports along `trace`. */
  function FirstError(run: Executor, trace: seq<Command>): (e: Option<ClusterError>)
    ensures e.None? <==> forall i :: 0 <= i < |trace| ==> run(trace[i]).Succeeded?
    ensures e.Some? ==>
      exists i :: 0 <= i < |trace| && run(trace[i]) == Failed(e.value) &&
        forall j :: 0 <= j < i ==> run(trace[j]).Succeeded?
  {
    if trace == [] then None
    else
      var earlier := FirstError(run, trace[..|trace| - 1]);
      var last := run(trace[|trace| - 1]);
      if earlier.Some? then earlier
      else if last.Failed? then Some(last.error)
      else None
  }

  /**
   * The walk in closed form: every descriptor file before the first missing
   * path is invoked once, in order; then either the first failure among those
   * invocations is reported, or the walk stops at the missing path.
   */
  function Expected(b: Batch, leaves: seq<Node>): Walk {
    var k := FirstMissing(leaves);
    var trace := FileCommands(b, YamlPaths(leaves[..k]));
    Walk(trace, if k == |leaves| then Completed(FirstError(b.run, trace)) else Aborted(leaves[k].path))
  }

  /** The first failure along two traces run one after the other. */
  lemma {:induction false} FirstErrorAppend(run: Executor, t1: seq<Command>, t2: seq<Command>)
    ensures FirstError(run, t1 + t2) == FirstOf(FirstError(run, t1), FirstError(run, t2))
    decreases |t2|
  {
    if t2 == [] {
      assert t1 + t2 == t1;
    } else {
      var front := t2[..|t2| - 1];
      assert (t1 + t2)[..|t1 + t2| - 1] == t1 + front;
      assert (t1 + t2)[|t1 + t2| - 1] == t2[|t2| - 1];
      FirstErrorAppend(run, t1, front);
    }
  }

  lemma CombineAssociative(x: Walk, y: Walk, z: Walk)
    ensures Combine(Combine(x, y), z) == Combine(x, Combine(y, z))
  {
  }

  lemma CombineIdle(w: Walk)
    ensures Combine(Idle, w) == w && Combine(w, Idle) == w
  {
  }

  /** Scanning two listings one after the other. */
  lemma {:induction false} LinearAppend(b: Batch, xs: seq<Node>, ys: seq<Node>)
    ensures Linear(b, xs + ys) == Combine(Linear(b, xs), Linear(b, ys))
    decreases |ys|
  {
    if ys == [] {
      assert xs + ys == xs;
      CombineIdle(Linear(b, xs));
    } else {
      var front := ys[..|ys| - 1];
      var last := ys[|ys| - 1];
      assert (xs + ys)[..|xs + ys| - 1] == xs + front;
      assert (xs + ys)[|xs + ys| - 1] == last;
      LinearAppend(b, xs, front);
      CombineAssociative(Linear(b, xs), Linear(b, front), LeafStep(b, last));
    }
  }

  /** The recursive walk does what the scan of its depth-first listing does. */
  lemma {:induction false} WalkAllIsLinear(b: Batch, files: seq<Node>)
    ensures WalkAll(b, files) == Linear(b, Flatten(b.order, files))
    decreases MaxHeight(files), 1, |files|
  {
    if files != [] {
      var front := files[..|files| - 1];
      var last := files[|files| - 1];
      WalkAllIsLinear(b, front);
      WalkOneIsLinear(b, last);
      LinearAppend(b, Flatten(b.order, front), FlattenOne(b.order, last));
    }
  }

  lemma {:induction false} WalkOneIsLinear(b: Batch, n: Node)
    ensures WalkOne(b, n) == Linear(b, FlattenOne(b.order, n))
    decreases Height(n), 0, 0
  {
    match n
    case Dir(_, _, children) =>
      var sorted := SortByName(b.order, children);
      MaxHeightOfPermutation(sorted, children);
      WalkAllIsLinear(b, sorted);
    case UnreadableDir(_, _) =>
    case _ =>
      assert [n][..0] == [];
      CombineIdle(LeafStep(b, n));
  }

  /** The scan agrees with the closed form. */
  lemma {:induction false} LinearIsExpected(b: Batch, leaves: seq<Node>)
    ensures Linear(b, leaves) == Expected(b, leaves)
    decreases |leaves|
  {
    if leaves != [] {
      var front := leaves[..|leaves| - 1];
      var last := leaves[|leaves| - 1];
      assert leaves == front + [last];
      calc {
        Linear(b, leaves);
        Combine(Linear(b, front), LeafStep(b, last));
        { LinearIsExpected(b, front); }
        Combine(Expected(b, front), LeafStep(b, last));
        { ExpectedExtend(b, front, last); }
        Expected(b, front + [last]);
      }
    }
  }

  /** One more node at the end of the listing. */
  lemma ExpectedExtend(b: Batch, front: seq<Node>, last: Node)
    ensures Expected(b, front + [last]) == Combine(Expected(b, front), LeafStep(b, last))
  {
    var leaves := front + [last];
    assert leaves[..|leaves| - 1] == front;
    var k := FirstMissing(front);
    if k < |front| {
      assert FirstMissing(leaves) == k;
      assert leaves[..k] == front[..k];
    } else {
      assert front[..k] == front;
      var paths := YamlPaths(front);
      var trace := FileCommands(b, paths);
      if last.Missing? {
        assert FirstMissing(leaves) == |front|;
        assert leaves[..|front|] == front;
        assert trace + [] == trace;
      } else {
        assert FirstMissing(leaves) == |leaves|;
        assert leaves[..|leaves|] == leaves;
        ExpectedExtendPresent(b, front, last);
      }
    }
  }

  lemma ExpectedExtendPresent(b: Batch, front: seq<Node>, last: Node)
    requires FirstMissing(front) == |front| && !last.Missing?
    ensures var leaves := front + [last];
      var trace := FileCommands(b, YamlPaths(leaves));
      Combine(Expected(b, front), LeafStep(b, last)) == Walk(trace, Completed(FirstError(b.run, trace)))
  {
    var leaves := front + [last];
    assert leaves[..|leaves| - 1] == front;
    assert front[..|front|] == front;
    var paths := YamlPaths(front);
    var trace := FileCommands(b, paths);
    assert Expected(b, front) == Walk(trace, Completed(FirstError(b.run, trace)));
    if Invoked(last) {
      assert YamlPaths(leaves) == paths + [last.absolutePath];
      AppendInvoked(b, paths, last);
    } else {
      assert LeafStep(b, last) == Idle;
      assert YamlPaths(leaves) == paths + [];
      assert paths + [] == paths;
      CombineIdle(Expected(b, front));
    }
  }

  lemma AppendInvoked(b: Batch, paths: seq<string>, last: Node)
    requires Invoked(last)
    ensures var trace := FileCommands(b, paths);
      var after := FileCommands(b, paths + [last.absolutePath]);
      Combine(Walk(trace, Completed(FirstError(b.run, trace))), LeafStep(b, last)) ==
        Walk(after, Completed(FirstError(b.run, after)))
  {
    var trace := FileCommands(b, paths);
    var c := FileCommand(b, last.absolutePath);
    var after := FileCommands(b, paths + [last.absolutePath]);
    assert after == trace + [c];
    assert after[..|trace|] == trace;
  }

  /**
   * What `execRecursive` does: the descriptor files met before the first
   * missing path, in depth-first order with each listing sorted, are each
   * invoked exactly once with `<subcommand> -f <absolute path>`; the walk
   * reports the first of their failures, or the first missing path.
   */
  lemma WalkSpec(b: Batch, files: seq<Node>)
    ensures WalkAll(b, files) == Expected(b, Flatten(b.order, files))
  {
    WalkAllIsLinear(b, files);
    LinearIsExpected(b, Flatten(b.order, files));
  }

  /**
   * A failure does not stop the walk: which commands are issued, and whether
   * the walk aborts, does not depend on what the executor answers.
   */
  lemma FailuresDoNotStopTheWalk(b: Batch, run: Executor, files: seq<Node>)
    ensures WalkAll(b.(run := run), files).trace == WalkAll(b, files).trace
    ensures WalkAll(b.(run := run), files).outcome.Aborted? == WalkAll(b, files).outcome.Aborted?
  {
    WalkSpec(b, files);
    WalkSpec(b.(run := run), files);
    var leaves := Flatten(b.order, files);
    var paths := YamlPaths(leaves[..FirstMissing(leaves)]);
    assert FileCommands(b, paths) == FileCommands(b.(run := run), paths);
  }

  /** The walk aborts exactly when its listing holds a missing path, and names the first. */
  lemma AbortsAtFirstMissing(b: Batch, files: seq<Node>)
    ensures var leaves := Flatten(b.order, files);
      WalkAll(b, files).outcome.Aborted? <==> exists i :: 0 <= i < |leaves| && leaves[i].Missing?
    ensures var leaves := Flatten(b.order, files);
      WalkAll(b, files).outcome.Aborted? ==>
        exists i :: 0 <= i < |leaves| && leaves[i].Missing? && WalkAll(b, files).outcome.missing == leaves[i].path &&
          forall j :: 0 <= j < i ==> !leaves[j].Missing?
  {
    WalkSpec(b, files);
  }

  /** What `create` and `delete` throw: a cluster failure or a missing path. */
  datatype Thrown = ClusterFailure(error: ClusterError) | NoSuchFile(path: string)

  /** `create` and `delete` rethrow the collected error. */
  function Rethrown(o: Outcome): (t: Option<Thrown>)
    ensures t.None? <==> o == Completed(None)
    ensures o.Aborted? ==> t == Some(NoSuchFile(o.missing))
    ensures o.Completed? && o.error.Some? ==> t == Some(ClusterFailure(o.error.value))
  {
    match o
    case Aborted(p) => Some(NoSuchFile(p))
    case Completed(Some(e)) => Some(ClusterFailure(e))
    case Completed(None) => None
  }

  /** `replace` drops the collected error; only a missing path escapes. */
  function Discarded(o: Outcome): (t: Option<Thrown>)
    ensures t.None? <==> o.Completed?
    ensures o.Aborted? ==> t == Some(NoSuchFile(o.missing))
  {
    match o
    case Aborted(p) => Some(NoSuchFile(p))
    case Completed(_) => None
  }

  /** `create`/`delete` throw the first failing invocation's error when no path is missing. */
  lemma RethrowsFirstFailure(b: Batch, files: seq<Node>, e: ClusterError)
    ensures var w := WalkAll(b, files);
      Rethrown(w.outcome) == Some(ClusterFailure(e)) <==>
        (forall i :: 0 <= i < |Flatten(b.order, files)| ==> !Flatten(b.order, files)[i].Missing?) &&
        FirstError(b.run, w.trace) == Some(e)
  {
    WalkSpec(b, files);
  }

  /** `replace` reports nothing unless a path is missing, however many invocations fail. */
  lemma ReplaceIgnoresFailures(b: Batch, files: seq<Node>)
    ensures Discarded(WalkAll(b, files).outcome).None? <==>
      forall i :: 0 <= i < |Flatten(b.order, files)| ==> !Flatten(b.order, files)[i].Missing?
  {
    WalkSpec(b, files);
  }

  /** One more iteration of the loop over the caller's paths. */
  lemma WalkAllStep(b: Batch, files: seq<Node>, i: nat)
    requires i < |files|
    ensures WalkAll(b, files[..i + 1]) == Combine(WalkAll(b, files[..i]), WalkOne(b, files[i]))
  {
    assert files[..i + 1][..i] == files[..i];
  }

  /** The sorted listing of a directory among `files` lies strictly below `files`. */
  lemma SortedChildrenBelow(order: Order, files: seq<Node>, i: nat)
    requires i < |files| && files[i].Dir?
    ensures MaxHeight(SortByName(order, files[i].children)) < MaxHeight(files)
  {
    HeightWithin(files, i);
    MaxHeightOfPermutation(SortByName(order, files[i].children), files[i].children);
  }

  /**
   * One iteration of the loop at a directory whose walk `e` is known: an
   * abort ends the whole walk; otherwise the directory's commands follow
   * the earlier ones and the earlier error wins.
   */
  lemma WalkDirStep(b: Batch, files: seq<Node>, i: nat, trace: seq<Command>, error: Option<ClusterError>, e: Walk)
    requires i < |files| && files[i].Dir?
    requires WalkAll(b, files[..i]) == Walk(trace, Completed(error))
    requires e == WalkAll(b, SortByName(b.order, files[i].children))
    ensures e.outcome.Aborted? ==> WalkAll(b, files) == Walk(trace + e.trace, e.outcome)
    ensures e.outcome.Completed? ==>
      WalkAll(b, files[..i + 1]) == Walk(trace + e.trace, Completed(FirstOf(error, e.outcome.error)))
  {
    WalkAllStep(b, files, i);
    assert WalkOne(b, files[i]) == e;
    if e.outcome.Aborted? {
      AbortIsFinal(b, files, i + 1);
    }
  }

  /**
   * One iteration of the loop at a node it does not descend into: a missing
   * path ends the whole walk, a descriptor file adds its command and, if no
   * error was caught yet, its failure; anything else changes nothing.
   */
  lemma WalkLeafStep(b: Batch, files: seq<Node>, i: nat, trace: seq<Command>, error: Option<ClusterError>)
    requires i < |files| && !files[i].Dir?
    requires WalkAll(b, files[..i]) == Walk(trace, Completed(error))
    ensures files[i].Missing? ==> WalkAll(b, files) == Walk(trace, Aborted(files[i].path))
    ensures !files[i].Missing? && !Invoked(files[i]) ==> WalkAll(b, files[..i + 1]) == Walk(trace, Completed(error))
    ensures Invoked(files[i]) ==>
      var c := FileCommand(b, files[i].absolutePath);
      WalkAll(b, files[..i + 1]) ==
        Walk(trace + [c], Completed(if error.None? && b.run(c).Failed? then Some(b.run(c).error) else error))
  {
    WalkAllStep(b, files, i);
    if files[i].Missing? {
      AbortIsFinal(b, files, i + 1);
    }
  }

  /** Once the walk of a prefix has aborted, nothing after it changes the walk. */
  lemma {:induction false} AbortIsFinal(b: Batch, files: seq<Node>, k: nat)
    requires k <= |files|
    requires WalkAll(b, files[..k]).outcome.Aborted?
    ensures WalkAll(b, files) == WalkAll(b, files[..k])
    decreases |files| - k
  {
    if k < |files| {
      var front := files[..|files| - 1];
      assert front[..k] == files[..k];
      AbortIsFinal(b, front, k);
    } else {
      assert files[..k] == files;
    }
  }
}
