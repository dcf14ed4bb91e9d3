/**
 * `BaseKubeClient`: the namespace it holds, the command lines it builds,
 * and the recursive batch application behind `create`, `delete` and `replace`.
 * The binary name (`cmd()`) and the default namespace are supplied by the
 * concrete client.
 */
module KubeClient {
  import opened Wrappers
  import opened Commands
  import opened FileTree
  import opened BatchApply

  const CREATE := "create"
  const DELETE := "delete"
  const REPLACE := "replace"

  class BaseKubeClient {
    /** `cmd()`: the tool's binary name. */
    const binary: string
    var namespace: string

    constructor (binary: string, defaultNamespace: string)
      ensures this.binary == binary && namespace == defaultNamespace
    {
      this.binary := binary;
      namespace := defaultNamespace;
    }

    /** `namespace(String)`: sets the namespace and hands back the one it replaced. */
    method SwapNamespace(ns: string) returns (previous: string)
      modifies this
      ensures previous == old(namespace) && namespace == ns
    {
      previous := namespace;
      namespace := ns;
    }

    /**
     * A caller that switches namespace, builds a command, and switches back
     * with the value it was handed: the command is in the new namespace and
     * the client is left as it was.
     */
    method NamespacedCommandIn(ns: string, rest: seq<string>) returns (c: Command)
      modifies this
      ensures c == Namespaced(binary, ns, rest)
      ensures namespace == old(namespace)
    {
      var previous := SwapNamespace(ns);
      c := NamespacedCommand(rest);
      var _ := SwapNamespace(previous);
    }

    /** `namespacedCommand(rest)`, built token by token. */
    method NamespacedCommand(rest: seq<string>) returns (result: Command)
      ensures result == Namespaced(binary, namespace, rest)
    {
      result := [];
      result := result + [binary];
      result := result + ["--namespace"];
      result := result + [namespace];
      result := result + rest;
    }

    /** The command line of `exec(pod, command...)`: the user's command follows `--` verbatim. */
    method ExecCommand(pod: string, command: seq<string>) returns (c: Command)
      ensures c == Namespaced(binary, namespace, ["exec", pod, "--"] + command)
      ensures |c| == 6 + |command| && c[3..6] == ["exec", pod, "--"] && c[6..] == command
    {
      c := NamespacedCommand(["exec", pod, "--"]);
      c := c + command;
      assert c[3..] == ["exec", pod, "--"] + command;
    }

    /** The fetch of `get` (format `yaml`) and `getResourceAsJson` (format `json`). */
    method GetCommand(resourceType: string, name: string, format: string) returns (c: Command)
      ensures c == Namespaced(binary, namespace, ["get", resourceType, name, "-o", format])
    {
      c := NamespacedCommand(["get", resourceType, name, "-o", format]);
    }

    /**
     * `execRecursive(subcommand, files, cmp)`: returns the commands it issued
     * and how it ended.
     */
    method ExecRecursive(subcommand: string, files: seq<Node>, order: Order, run: Executor) returns (w: Walk)
      ensures w == WalkAll(Batch(binary, namespace, subcommand, order, run), files)
      decreases MaxHeight(files)
    {
      ghost var b := Batch(binary, namespace, subcommand, order, run);
      var trace: seq<Command> := [];
      var error: Option<ClusterError> := None;
      var i := 0;
      while i < |files|
        invariant 0 <= i <= |files|
        invariant WalkAll(b, files[..i]) == Walk(trace, Completed(error))
      {
        var f := files[i];
        match f {
          case File(name, _, absolutePath) =>
            WalkLeafStep(b, files, i, trace, error);
            if IsYaml(name) {
              var c := NamespacedCommand([subcommand, "-f", absolutePath]);
              assert c == FileCommand(b, absolutePath);
              trace := trace + [c];
              var result := run(c);
              if result.Failed? && error == None {
                error := Some(result.error);
              }
            }
          case Dir(_, _, listing) =>
            var children := SortByName(order, listing);
            SortedChildrenBelow(order, files, i);
            var e := ExecRecursive(subcommand, children, order, run);
            WalkDirStep(b, files, i, trace, error, e);
            if e.outcome.Aborted? {
              w := Walk(trace + e.trace, e.outcome);
              return;
            }
            trace := trace + e.trace;
            if error == None {
              error := e.outcome.error;
            }
          case UnreadableDir(_, _) =>
            WalkLeafStep(b, files, i, trace, error);
          case Special(_, _) =>
            WalkLeafStep(b, files, i, trace, error);
          case Missing(_, path) =>
            WalkLeafStep(b, files, i, trace, error);
            w := Walk(trace, Aborted(path));
            return;
        }
        i := i + 1;
      }
      assert files[..|files|] == files;
      w := Walk(trace, Completed(error));
    }

    /** `create(files...)`: ascending name order; the collected error is rethrown. */
    method Create(files: seq<Node>, run: Executor) returns (trace: seq<Command>, thrown: Option<Thrown>)
      ensures var w := WalkAll(Batch(binary, namespace, CREATE, Ascending, run), files);
        trace == w.trace && thrown == Rethrown(w.outcome)
    {
      var w := ExecRecursive(CREATE, files, Ascending, run);
      trace := w.trace;
      thrown := match w.outcome
        case Aborted(p) => Some(NoSuchFile(p))
        case Completed(Some(e)) => Some(ClusterFailure(e))
        case Completed(None) => None;
    }

    /** `delete(files...)`: descending name order; the collected error is rethrown. */
    method Delete(files: seq<Node>, run: Executor) returns (trace: seq<Command>, thrown: Option<Thrown>)
      ensures var w := WalkAll(Batch(binary, namespace, DELETE, Descending, run), files);
        trace == w.trace && thrown == Rethrown(w.outcome)
    {
      var w := ExecRecursive(DELETE, files, Descending, run);
      trace := w.trace;
      thrown := match w.outcome
        case Aborted(p) => Some(NoSuchFile(p))
        case Completed(Some(e)) => Some(ClusterFailure(e))
        case Completed(None) => None;
    }

    /** `replace(files...)`: ascending name order; the collected error is dropped. */
    method Replace(files: seq<Node>, run: Executor) returns (trace: seq<Command>, thrown: Option<Thrown>)
      ensures var w := WalkAll(Batch(binary, namespace, REPLACE, Ascending, run), files);
        trace == w.trace && thrown == Discarded(w.outcome)
    {
      var w := ExecRecursive(REPLACE, files, Ascending, run);
      trace := w.trace;
      thrown := match w.outcome
        case Aborted(p) => Some(NoSuchFile(p))
        case Completed(_) => None;
    }
  }
}
