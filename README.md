# BaseKubeClient, modelled in Dafny

A model of `BaseKubeClient`, the base class of Strimzi's test client that drives a
cluster command-line tool (`kubectl`, `oc`). The model covers:

- the single mutable namespace the client holds, and how every command line is built
  from it (`<binary> --namespace <ns> <rest...>`);
- the recursive batch application behind `create`, `delete` and `replace`
  (`execRecursive`): which descriptor files are invoked, in which order, which error
  is reported, and when the walk stops;
- the readiness predicates of `waitForDeployment`, `waitForPod`, `waitForStatefulSet`
  and `waitForResourceCreation`, and the decision each poll of `waitFor`,
  `waitForResourceDeletion` and `waitForResourceUpdate` takes.

Files: `wrappers.dfy` (Option), `commands.dfy` (command lines, the executor oracle),
`name_order.dfy` (the `String.compareTo` order), `file_tree.dfy` (the filesystem tree
and the sort of a directory listing), `batch_apply.dfy` (what the walk does),
`kube_client.dfy` (the client class), `readiness.dfy` (predicates and poll steps).

The executor is an oracle `Command -> ExecOutcome`; the filesystem is a tree of
`Node`s (`File`, `Dir` with its listing, `UnreadableDir` for a `listFiles()` of null,
`Special` for an existing path that is neither file nor directory, `Missing`).
`ExecRecursive` is a loop over the caller's paths that recurses into sorted listings,
and is proved equal to the recursive specification `WalkAll`. `WalkSpec` then states
`WalkAll` in closed form over the depth-first listing `Flatten` of the tree: the
`.yaml` files met before the first missing path are each invoked once, in that order,
with `<subcommand> -f <absolute path>`; the reported error is the first failure among
them, or the walk aborts with the first missing path.

Behaviour worth noting, as the code has it:

- There is no check for missing paths before the walk starts: files met before a
  missing path have already been invoked when it aborts.
- A directory whose `listFiles()` is null, and an existing path that is neither a
  file nor a directory, are skipped silently.
- `replace` drops the collected error; only a missing path escapes it.
- The stateful-set predicate reads `.status.replicas` before anything else, so an
  absent `replicas` is a null dereference that leaves the poll loop, not "not ready".
  An absent `.status` does the same in the deployment, pod and stateful-set predicates;
  the creation predicate reads nothing, so any fetched resource satisfies it.
- With distinct names, `delete` visits a listing in exactly the reverse order of
  `create` (`DescendingReversesAscending`); the walk stays depth-first either way.

## Model

| member | source | states |
|---|---|---|
| `Commands.Namespaced` | common-test/src/main/java/io/strimzi/test/k8s/BaseKubeClient.java:86-97 | a command has three tokens more than `rest`: the binary, `--namespace`, the namespace, then `rest` verbatim |
| `Commands.NamespacedInjective` | common-test/src/main/java/io/strimzi/test/k8s/BaseKubeClient.java:86-97 | equal commands from one binary were built from the same namespace and the same tokens |
| `KubeClient.BaseKubeClient.constructor` | common-test/src/main/java/io/strimzi/test/k8s/BaseKubeClient.java:39-41 | a new client holds the binary of its concrete tool and the default namespace |
| `KubeClient.BaseKubeClient.SwapNamespace` | common-test/src/main/java/io/strimzi/test/k8s/BaseKubeClient.java:59-68 | returns the previous namespace; afterwards the namespace is the one given |
| `KubeClient.BaseKubeClient.NamespacedCommandIn` | common-test/src/main/java/io/strimzi/test/k8s/BaseKubeClient.java:59-68 | swapping in a namespace, building a command and swapping back with the returned value builds the command in the new namespace and restores the old one |
| `KubeClient.BaseKubeClient.NamespacedCommand` | common-test/src/main/java/io/strimzi/test/k8s/BaseKubeClient.java:90-97 | the list built by successive adds is the namespaced command of the current namespace |
| `KubeClient.BaseKubeClient.ExecCommand` | common-test/src/main/java/io/strimzi/test/k8s/BaseKubeClient.java:203-208 | the `exec` command is `exec <pod> --` after the namespace prefix, then the user's command verbatim |
| `KubeClient.BaseKubeClient.GetCommand` | common-test/src/main/java/io/strimzi/test/k8s/BaseKubeClient.java:99-102 | the fetch issued by `get` and the polls is `get <type> <name> -o <format>` in the current namespace |
| `KubeClient.BaseKubeClient.ExecRecursive` | common-test/src/main/java/io/strimzi/test/k8s/BaseKubeClient.java:126-153 | the loop with its recursion issues exactly the commands of `WalkAll` and ends as `WalkAll` does |
| `KubeClient.BaseKubeClient.Create` | common-test/src/main/java/io/strimzi/test/k8s/BaseKubeClient.java:104-113 | walks with `create` in ascending name order and throws the collected error or the missing path |
| `KubeClient.BaseKubeClient.Delete` | common-test/src/main/java/io/strimzi/test/k8s/BaseKubeClient.java:115-124 | walks with `delete` in descending name order and throws the collected error or the missing path |
| `KubeClient.BaseKubeClient.Replace` | common-test/src/main/java/io/strimzi/test/k8s/BaseKubeClient.java:155-161 | walks with `replace` in ascending name order; throws only for a missing path |
| `NameOrder.NameBefore` | common-test/src/main/java/io/strimzi/test/k8s/BaseKubeClient.java:107 | `compareTo` below zero: the first name is a proper prefix of the second, or is smaller at the first position where they differ |
| `NameOrder.NameBeforeIrreflexive` | common-test/src/main/java/io/strimzi/test/k8s/BaseKubeClient.java:107 | no name compares below itself |
| `NameOrder.NameBeforeTransitive` | common-test/src/main/java/io/strimzi/test/k8s/BaseKubeClient.java:107 | the name order is transitive |
| `NameOrder.NameBeforeTotal` | common-test/src/main/java/io/strimzi/test/k8s/BaseKubeClient.java:107 | two distinct names are always ordered one way or the other |
| `FileTree.IsYaml` | common-test/src/main/java/io/strimzi/test/k8s/BaseKubeClient.java:130 | a name is accepted iff it is at least five characters long and is some stem followed by `.yaml` |
| `FileTree.YamlExtension` | common-test/src/main/java/io/strimzi/test/k8s/BaseKubeClient.java:130 | every stem with `.yaml` is accepted, and no name ending in `.yml` is |
| `FileTree.Precedes` | common-test/src/main/java/io/strimzi/test/k8s/BaseKubeClient.java:107 | the `create`/`replace` comparator compares the names; the `delete` comparator (line 118) compares them the other way round; neither puts a name before an equal one |
| `FileTree.Insert` | common-test/src/main/java/io/strimzi/test/k8s/BaseKubeClient.java:142 | inserting adds exactly the one entry to the listing |
| `FileTree.SortByName` | common-test/src/main/java/io/strimzi/test/k8s/BaseKubeClient.java:142 | the sorted listing is a permutation of the listing |
| `FileTree.InsertSorted` | common-test/src/main/java/io/strimzi/test/k8s/BaseKubeClient.java:142 | inserting into a sorted listing keeps it sorted |
| `FileTree.SortByNameSorted` | common-test/src/main/java/io/strimzi/test/k8s/BaseKubeClient.java:140-143 | the listing is walked in the comparator's order: no entry comes before an earlier one |
| `FileTree.SortByNameDistinct` | common-test/src/main/java/io/strimzi/test/k8s/BaseKubeClient.java:142 | sorting keeps the names of a listing distinct |
| `FileTree.StrictlySortedUnique` | common-test/src/main/java/io/strimzi/test/k8s/BaseKubeClient.java:142 | two strictly sorted arrangements of one collection are equal |
| `FileTree.DescendingReversesAscending` | common-test/src/main/java/io/strimzi/test/k8s/BaseKubeClient.java:105-124 | for distinct names, the `delete` order of a listing is the reverse of the `create` order |
| `FileTree.MaxHeightOfPermutation` | common-test/src/main/java/io/strimzi/test/k8s/BaseKubeClient.java:140-143 | sorting a listing does not deepen the recursion below it, so the walk terminates |
| `BatchApply.FileCommand` | common-test/src/main/java/io/strimzi/test/k8s/BaseKubeClient.java:132 | a descriptor file is applied with the namespaced command of the batch: `<binary> --namespace <namespace> <subcommand> -f <absolute path>` |
| `BatchApply.FirstOf` | common-test/src/main/java/io/strimzi/test/k8s/BaseKubeClient.java:134-146 | the error caught first is kept; a later one is taken only when none was caught; none results only when neither caught one |
| `BatchApply.LeafStep` | common-test/src/main/java/io/strimzi/test/k8s/BaseKubeClient.java:129-150 | a `.yaml` file issues exactly its one command and catches its failure; a missing path aborts with that path; any other file, an unreadable directory or a special path issues nothing |
| `BatchApply.WalkAll` | common-test/src/main/java/io/strimzi/test/k8s/BaseKubeClient.java:126-153 | the loop issues only `<subcommand> -f <path>` commands of the batch, and when it completes it reports the first failure among the commands it issued |
| `BatchApply.WalkOne` | common-test/src/main/java/io/strimzi/test/k8s/BaseKubeClient.java:129-150 | one loop iteration does the same for a single path, recursing into a sorted directory listing |
| `BatchApply.FirstMissing` | common-test/src/main/java/io/strimzi/test/k8s/BaseKubeClient.java:148-149 | the index of the first missing path: none before it, and it is missing when inside the listing |
| `BatchApply.YamlIndices` | common-test/src/main/java/io/strimzi/test/k8s/BaseKubeClient.java:128-139 | the positions of the `.yaml` files in the listing, each exactly once and in increasing order |
| `BatchApply.YamlPaths` | common-test/src/main/java/io/strimzi/test/k8s/BaseKubeClient.java:128-139 | the invoked paths are the absolute paths of the `.yaml` files taken at those positions, in listing order and with each file once; no other file or path contributes |
| `BatchApply.FileCommands` | common-test/src/main/java/io/strimzi/test/k8s/BaseKubeClient.java:132 | one command per path, in the same order |
| `BatchApply.FirstError` | common-test/src/main/java/io/strimzi/test/k8s/BaseKubeClient.java:133-137 | no error iff every invocation succeeded; otherwise the error of the earliest failing invocation |
| `BatchApply.FirstErrorAppend` | common-test/src/main/java/io/strimzi/test/k8s/BaseKubeClient.java:133-146 | the first failure of two traces run one after the other is that of the first trace, or else that of the second |
| `BatchApply.CombineAssociative` | common-test/src/main/java/io/strimzi/test/k8s/BaseKubeClient.java:143-146 | folding a nested walk's result into the loop's is associative |
| `BatchApply.LinearAppend` | common-test/src/main/java/io/strimzi/test/k8s/BaseKubeClient.java:128-151 | scanning two listings one after the other is scanning their concatenation |
| `BatchApply.WalkAllIsLinear` | common-test/src/main/java/io/strimzi/test/k8s/BaseKubeClient.java:126-153 | the recursive walk equals the scan of its depth-first listing |
| `BatchApply.WalkOneIsLinear` | common-test/src/main/java/io/strimzi/test/k8s/BaseKubeClient.java:139-147 | walking into a directory equals scanning its sorted, flattened listing |
| `BatchApply.LinearIsExpected` | common-test/src/main/java/io/strimzi/test/k8s/BaseKubeClient.java:126-153 | the scan is the closed form: invocations before the first missing path, then first error or abort |
| `BatchApply.ExpectedExtend` | common-test/src/main/java/io/strimzi/test/k8s/BaseKubeClient.java:128-151 | the closed form of one more node is one more loop iteration |
| `BatchApply.WalkSpec` | common-test/src/main/java/io/strimzi/test/k8s/BaseKubeClient.java:126-153 | every `.yaml` file met before the first missing path is invoked once, depth-first in sorted order; the first failure is reported, or the first missing path aborts the walk |
| `BatchApply.FailuresDoNotStopTheWalk` | common-test/src/main/java/io/strimzi/test/k8s/BaseKubeClient.java:131-137 | the executor's answers change neither which commands are issued nor whether the walk aborts |
| `BatchApply.AbortsAtFirstMissing` | common-test/src/main/java/io/strimzi/test/k8s/BaseKubeClient.java:148-149 | the walk aborts iff some reached path is missing, and names the first such path |
| `BatchApply.AbortIsFinal` | common-test/src/main/java/io/strimzi/test/k8s/BaseKubeClient.java:148-149 | once a prefix of the caller's paths aborts, the later paths change nothing |
| `BatchApply.WalkAllStep` | common-test/src/main/java/io/strimzi/test/k8s/BaseKubeClient.java:128-151 | the walk of one more caller path is the earlier walk followed by that path's iteration |
| `BatchApply.WalkLeafStep` | common-test/src/main/java/io/strimzi/test/k8s/BaseKubeClient.java:129-150 | at a non-directory the loop aborts on a missing path, appends the command of a `.yaml` file and keeps the earlier error, or changes nothing |
| `BatchApply.WalkDirStep` | common-test/src/main/java/io/strimzi/test/k8s/BaseKubeClient.java:140-147 | at a directory the nested walk's abort ends the whole walk; otherwise its commands follow the earlier ones and the earlier error wins |
| `BatchApply.SortedChildrenBelow` | common-test/src/main/java/io/strimzi/test/k8s/BaseKubeClient.java:140-143 | the sorted listing of a directory lies strictly below the caller's paths, so the recursion terminates |
| `BatchApply.Rethrown` | common-test/src/main/java/io/strimzi/test/k8s/BaseKubeClient.java:107-110 | `create`/`delete` return normally only when the walk completed without error |
| `BatchApply.Discarded` | common-test/src/main/java/io/strimzi/test/k8s/BaseKubeClient.java:158 | `replace` returns normally whenever the walk completed, error or not |
| `BatchApply.RethrowsFirstFailure` | common-test/src/main/java/io/strimzi/test/k8s/BaseKubeClient.java:104-124 | `create`/`delete` throw a cluster error iff no path is missing and it is the first failure of the trace |
| `BatchApply.ReplaceIgnoresFailures` | common-test/src/main/java/io/strimzi/test/k8s/BaseKubeClient.java:155-161 | `replace` throws iff a reached path is missing |
| `Readiness.WaitForPoll` | common-test/src/main/java/io/strimzi/test/k8s/BaseKubeClient.java:220-231 | a NotFound fetch means not ready; another cluster error or unparsable output leaves the loop; a fetched resource is decided by the predicate |
| `Readiness.DeploymentReady` | common-test/src/main/java/io/strimzi/test/k8s/BaseKubeClient.java:238-241 | ready iff `replicas` is present and `readyReplicas` is present and equal to it |
| `Readiness.AllReady` | common-test/src/main/java/io/strimzi/test/k8s/BaseKubeClient.java:253-258 | the loop with early return is true iff every container is ready |
| `Readiness.PodReady` | common-test/src/main/java/io/strimzi/test/k8s/BaseKubeClient.java:251-260 | ready iff `containerStatuses` is an array of ready entries; an empty array is ready, an absent one is not |
| `Readiness.DeploymentCheck` | common-test/src/main/java/io/strimzi/test/k8s/BaseKubeClient.java:237-243 | throws iff `.status` is absent; holds iff the deployment is ready |
| `Readiness.PodCheck` | common-test/src/main/java/io/strimzi/test/k8s/BaseKubeClient.java:249-262 | throws iff `.status` is absent; holds iff the pod is ready |
| `Readiness.Decimal` | common-test/src/main/java/io/strimzi/test/k8s/BaseKubeClient.java:278 | an ordinal is written in decimal digits, most significant first (their value read left to right by `DigitsValue` is the ordinal), with at least one digit and no leading zero on any ordinal, so `0` is written `0` |
| `Readiness.PodName` | common-test/src/main/java/io/strimzi/test/k8s/BaseKubeClient.java:278 | a pod name is the set name, a dash, then decimal digits with no leading zero that denote the ordinal |
| `Readiness.DecimalInjective` | common-test/src/main/java/io/strimzi/test/k8s/BaseKubeClient.java:278 | distinct ordinals are written differently |
| `Readiness.PodNamesDistinct` | common-test/src/main/java/io/strimzi/test/k8s/BaseKubeClient.java:278 | distinct ordinals name distinct pods |
| `Readiness.PodNames` | common-test/src/main/java/io/strimzi/test/k8s/BaseKubeClient.java:276-280 | the names `name-0 .. name-(n-1)` in ordinal order |
| `Readiness.IssuePodWaits` | common-test/src/main/java/io/strimzi/test/k8s/BaseKubeClient.java:276-280 | the loop waits for `name-0 .. name-(expectPods-1)` in order, and for none when `expectPods` is negative |
| `Readiness.StatefulSetCheck` | common-test/src/main/java/io/strimzi/test/k8s/BaseKubeClient.java:268-284 | throws iff `.status` or `replicas` is absent; holds iff `currentReplicas` is present and equals `replicas` and, for `expectPods >= 0`, `expectPods`; when it holds the pod waits are issued |
| `Readiness.CreationCheck` | common-test/src/main/java/io/strimzi/test/k8s/BaseKubeClient.java:290-292 | any fetched resource satisfies the creation wait |
| `Readiness.DeletionPoll` | common-test/src/main/java/io/strimzi/test/k8s/BaseKubeClient.java:297-305 | done iff the fetch finds nothing; any successful fetch means not yet; other cluster errors leave the loop |
| `Readiness.UpdatePoll` | common-test/src/main/java/io/strimzi/test/k8s/BaseKubeClient.java:311-318 | done iff the creation timestamp is strictly after the start time; NotFound means not yet; an absent timestamp leaves the loop |
| `Readiness.DeploymentPoll` | common-test/src/main/java/io/strimzi/test/k8s/BaseKubeClient.java:236-244 | a deployment poll succeeds exactly on a fetched ready deployment and fails out exactly on errors or a missing `.status` |
| `Readiness.PodPoll` | common-test/src/main/java/io/strimzi/test/k8s/BaseKubeClient.java:247-263 | a pod poll succeeds exactly on a fetched ready pod and fails out exactly on errors or a missing `.status` |
| `Readiness.StatefulSetPoll` | common-test/src/main/java/io/strimzi/test/k8s/BaseKubeClient.java:266-285 | a stateful-set poll succeeds exactly when its predicate holds, having issued the pod waits for ordinals `0 .. expectPods-1` in order; it fails out on errors or a missing `.status` or `replicas` |
| `Readiness.CreationPoll` | common-test/src/main/java/io/strimzi/test/k8s/BaseKubeClient.java:288-293 | a creation poll succeeds on any fetched resource, retries when it is absent, and fails out on other errors |
| `Readiness.DeletionInvertsCreation` | common-test/src/main/java/io/strimzi/test/k8s/BaseKubeClient.java:288-306 | on a found or not-found fetch, the deletion poll decides the opposite of the creation poll |
| `Readiness.NotFoundKeepsPolling` | common-test/src/main/java/io/strimzi/test/k8s/BaseKubeClient.java:220-318 | an absent resource means "poll again" for every wait except deletion, where it means done |

## Left out

- Process execution (`Exec.exec`, and `clientAvailable` through `Exec.isExecutableOnPath`): replaced by the executor oracle; the model records the command lines handed to it.
- The real filesystem (`isFile`, `isDirectory`, `listFiles`, `exists`, `getAbsolutePath`): replaced by the `Node` tree, each node carrying the name and paths the `File` object reports; a listing is fixed once, not re-read.
- `Arrays.sort` sorts the listing array in place with a library merge sort; the model sorts a sequence with a stable insertion sort, which yields the same order but not the in-place update of the array.
- Names are compared by Dafny characters (code points), whereas `String.compareTo` compares UTF-16 code units; the two orders differ only for characters outside the Basic Multilingual Plane.
- The executor's answer depends only on the command line: repeated identical commands get the same answer, whereas a real cluster answers a second `create` of the same resource with an already-exists error.
- Exceptions other than `KubeClusterException` raised by the executor would escape `execRecursive` at once; the oracle does not produce them.
- The polling loop of `TestUtils.waitFor` (interval, timeout, sleeps) is not part of this model; each wait is modelled by the decision of a single poll.
- The nested `waitForPod` calls of a stateful-set poll are modelled by the pod names waited on, in order, not by their own polling or timeouts.
- JSON parsing (Jackson, JsonPath) is replaced by the abstract `Resource` record: a `containerStatuses` value that is not an array is modelled as absent (both make the pod predicate false), a container entry without a `ready` field (a null dereference in the source) is not represented, and `asInt`/`asBoolean` conversions of non-numeric values are not modelled.
- `getResourceCreateTimestamp` date parsing with `SimpleDateFormat` is replaced by an already-parsed instant; an absent or unparsable timestamp is `None`.
- The one-shot operations `deleteByName`, `createContent`, `replaceContent`, `deleteContent`, `createNamespace`, `deleteNamespace`, `describe`, `logs` and `list`: each is a namespaced command passed straight to the executor, with no logic beyond what `NamespacedCommand` already states (`list` also splits the tool's output with a regular expression).
- `toString`: it returns `cmd()`, the name of the tool's binary, and runs no command; the model has the binary as the client's `binary` field.
- `Context`, `defaultContext`, `adminContext` and `clientWithAdmin`: the contexts are no-ops in this class and the admin client is supplied by subclasses.
- Logging.
- `common-test/src/main/java/io/strimzi/test/Topic.java`: an annotation declaration with no behaviour.
