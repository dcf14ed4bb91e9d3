/**
 * Command lines handed to the cluster tool, and the executor that runs them.
 * Running a process is I/O; the model replaces it by an oracle that maps a
 * command line to the outcome the tool would report.
 */
module Commands {

  /** A command line, one token per element. */
  type Command = seq<string>

  /** A `KubeClusterException` raised by the executor for a failed invocation. */
  datatype ClusterError = ClusterError(message: string)

  /** What one invocation of the tool yields. */
  datatype ExecOutcome = Succeeded | Failed(error: ClusterError)

  /** The executor: which outcome the tool reports for each command line. */
  type Executor = Command -> ExecOutcome

  /**
   * `namespacedCommand`: the tool's binary, `--namespace`, the namespace,
   * then the caller's tokens verbatim.
   */
  function Namespaced(binary: string, ns: string, rest: seq<string>): (c: Command)
    ensures |c| == 3 + |rest|
    ensures c[0] == binary && c[1] == "--namespace" && c[2] == ns
    ensures c[3..] == rest
  {
    [binary, "--namespace", ns] + rest
  }

  /** A namespaced command determines the namespace and the tokens it was built from. */
  lemma NamespacedInjective(binary: string, ns1: string, rest1: seq<string>, ns2: string, rest2: seq<string>)
    requires Namespaced(binary, ns1, rest1) == Namespaced(binary, ns2, rest2)
    ensures ns1 == ns2 && rest1 == rest2
  {
  }
}
