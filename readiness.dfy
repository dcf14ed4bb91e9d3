/**
 * The readiness predicates and the per-poll decisions of the wait operations.
 * The JSON a fetch returns is abstracted to the fields the predicates read;
 * a field that is absent is `None`. The polling loop itself (interval,
 * timeout) is not part of this module: each function decides a single poll.
 */
module Readiness {
  import opened Wrappers
  import opened Commands

  /** `.status` of a resource. */
  datatype Status = Status(
    replicas: Option<int>,
    readyReplicas: Option<int>,
    currentReplicas: Option<int>,
    /** the `ready` flags of `.status.containerStatuses`, when it is an array */
    containerStatuses: Option<seq<bool>>)

  /** A fetched resource: its `.status`, and `.metadata.creationTimestamp` once parsed. */
  datatype Resource = Resource(status: Option<Status>, creationTimestamp: Option<int>)

  /** What one fetch of `get <type> <name> -o json` yields. */
  datatype Fetch =
    | Fetched(resource: Resource)
    | NotFound                          // KubeClusterException.NotFound
    | FetchFailed(error: ClusterError)  // any other KubeClusterException
    | Unparsable                        // the output is not JSON

  /** A failure that leaves the poll loop. */
  datatype Fault =
    | ExecFault(error: ClusterError)
    | ParseFault       // IOException from the JSON reader
    | NullDereference  // a field that the predicate dereferences is absent

  /** What a predicate answers; `Holds` carries the pod waits it issued first. */
  datatype Check = Holds(podWaits: seq<string>) | DoesNotHold | Throws(fault: Fault)

  /** What one poll decides: stop with success, poll again, or stop with a failure. */
  datatype Step = Ready(podWaits: seq<string>) | NotReady | Propagate(fault: Fault)

  function FromBool(b: bool): Check {
    if b then Holds([]) else DoesNotHold
  }

  /** The poll lambda of `waitFor`. */
  function WaitForPoll(check: Resource -> Check, f: Fetch): (s: Step)
    ensures f.NotFound? ==> s == NotReady
    ensures f.FetchFailed? ==> s == Propagate(ExecFault(f.error))
    ensures f.Unparsable? ==> s == Propagate(ParseFault)
    ensures f.Fetched? ==> (s.Ready? <==> check(f.resource).Holds?)
    ensures f.Fetched? ==> (s.NotReady? <==> check(f.resource).DoesNotHold?)
    ensures s.Ready? ==> f.Fetched? && s.podWaits == check(f.resource).podWaits
  {
    match f
    case NotFound => NotReady
    case FetchFailed(e) => Propagate(ExecFault(e))
    case Unparsable => Propagate(ParseFault)
    case Fetched(r) =>
      match check(r)
      case Holds(waits) => Ready(waits)
      case DoesNotHold => NotReady
      case Throws(fault) => Propagate(fault)
  }

  /** A deployment is ready when both replica counts are reported and agree. */
  function DeploymentReady(st: Status): (r: bool)
    ensures r <==> st.replicas.Some? && st.readyReplicas == st.replicas
  {
    st.replicas.Some? && st.readyReplicas.Some? && st.replicas.value == st.readyReplicas.value
  }

  /** Every container reports ready; the loop returns false at the first that does not. */
  function AllReady(flags: seq<bool>): (r: bool)
    ensures r <==> forall i :: 0 <= i < |flags| ==> flags[i]
  {
    if flags == [] then true
    else if !flags[0] then false
    else AllReady(flags[1..])
  }

  /** A pod is ready when `containerStatuses` is an array of ready containers. */
  function PodReady(st: Status): (r: bool)
    ensures r <==> st.containerStatuses.Some? && forall i :: 0 <= i < |st.containerStatuses.value| ==> st.containerStatuses.value[i]
    ensures st.containerStatuses == Some([]) ==> r
  {
    match st.containerStatuses
    case None => false
    case Some(flags) => AllReady(flags)
  }

  /** The predicate of `waitForDeployment`. */
  function DeploymentCheck(r: Resource): (c: Check)
    ensures c.Throws? <==> r.status.None?
    ensures c.Holds? <==> r.status.Some? && DeploymentReady(r.status.value)
    ensures c.Holds? ==> c.podWaits == []
  {
    match r.status
    case None => Throws(NullDereference)
    case Some(st) => FromBool(DeploymentReady(st))
  }

  /** The predicate of `waitForPod`. */
  function PodCheck(r: Resource): (c: Check)
    ensures c.Throws? <==> r.status.None?
    ensures c.Holds? <==> r.status.Some? && PodReady(r.status.value)
    ensures c.Holds? ==> c.podWaits == []
  {
    match r.status
    case None => Throws(NullDereference)
    case Some(st) => FromBool(PodReady(st))
  }

  /** The number a string of decimal digits denotes, most significant digit first. */
  function DigitsValue(s: string): int {
    if s == [] then 0 else DigitsValue(s[..|s| - 1]) * 10 + (s[|s| - 1] as int - 48)
  }

  /**
   * `Integer.toString(n)` for `n >= 0`: decimal digits, most significant
   * first, with no leading zero.
   */
  function Decimal(n: nat): (s: string)
    ensures |s| >= 1 && (n >= 10 ==> |s| >= 2)
    ensures forall i :: 0 <= i < |s| ==> '0' <= s[i] <= '9'
    ensures DigitsValue(s) == n
    ensures n > 0 ==> s[0] != '0'
    ensures |s| > 1 ==> s[0] != '0'
  {
    if n < 10 then
      assert [(48 + n) as char][..0] == [];
      [(48 + n) as char]
    else
      var front := Decimal(n / 10);
      var s := front + [(48 + n % 10) as char];
      assert s[..|s| - 1] == front;
      s
  }

  /** Distinct ordinals are written differently. */
  lemma DecimalInjective(a: nat, b: nat)
    requires Decimal(a) == Decimal(b)
    ensures a == b
  {
    // Both strings denote their ordinal (Decimal's contract).
  }

  /** The pod of a stateful set with ordinal `i`: `name + "-" + i`. */
  function PodName(name: string, i: nat): (p: string)
    ensures |p| >= |name| + 2 && p[..|name| + 1] == name + "-"
    ensures forall k :: |name| + 1 <= k < |p| ==> '0' <= p[k] <= '9'
    ensures |p| > |name| + 2 ==> p[|name| + 1] != '0'
    ensures DigitsValue(p[|name| + 1..]) == i
  {
    var p := name + "-" + Decimal(i);
    assert p[|name| + 1..] == Decimal(i);
    p
  }

  /** Ordinals name distinct pods. */
  lemma PodNamesDistinct(name: string, i: nat, j: nat)
    requires i != j
    ensures PodName(name, i) != PodName(name, j)
  {
    // The digits after `name-` denote the ordinal (PodName's contract).
  }

  /** The pods `name-0 .. name-(n-1)`, in ordinal order. */
  function PodNames(name: string, n: nat): (names: seq<string>)
    ensures |names| == n
    ensures forall i :: 0 <= i < n ==> names[i] == PodName(name, i)
  {
    if n == 0 then [] else PodNames(name, n - 1) + [PodName(name, n - 1)]
  }

  /** The loop of `waitForStatefulSet` that waits for each pod in turn. */
  method IssuePodWaits(name: string, expectPods: int) returns (waits: seq<string>)
    ensures waits == PodNames(name, if expectPods >= 0 then expectPods else 0)
  {
    waits := [];
    if expectPods >= 0 {
      var ii := 0;
      while ii < expectPods
        invariant 0 <= ii <= expectPods
        invariant waits == PodNames(name, ii)
      {
        waits := waits + [PodName(name, ii)];
        ii := ii + 1;
      }
    }
  }

  /**
   * The predicate of `waitForStatefulSet(name, expectPods)`. The desired
   * replica count is dereferenced first, so an absent one throws; a negative
   * `expectPods` only asks that current and desired counts agree.
   */
  function StatefulSetCheck(name: string, expectPods: int, r: Resource): (c: Check)
    ensures c.Throws? <==> r.status.None? || r.status.value.replicas.None?
    ensures c.Holds? <==>
      r.status.Some? && r.status.value.replicas.Some? && r.status.value.currentReplicas.Some? &&
      var rep := r.status.value.replicas.value;
      var current := r.status.value.currentReplicas.value;
      if expectPods >= 0 then expectPods == current == rep else rep == current
    ensures c.Holds? ==> c.podWaits == PodNames(name, if expectPods >= 0 then expectPods else 0)
  {
    match r.status
    case None => Throws(NullDereference)
    case Some(st) =>
      match st.replicas
      case None => Throws(NullDereference)
      case Some(rep) =>
        if st.currentReplicas.Some? &&
           ((expectPods >= 0 && expectPods == st.currentReplicas.value && expectPods == rep) ||
            (expectPods < 0 && rep == st.currentReplicas.value))
        then Holds(if expectPods >= 0 then PodNames(name, expectPods) else [])
        else DoesNotHold
  }

  /** The predicate of `waitForResourceCreation`: any fetched resource will do. */
  function CreationCheck(r: Resource): (c: Check)
    ensures c == Holds([])
  {
    Holds([])
  }

  /** A deployment poll stops with success exactly on a fetched, ready deployment. */
  function DeploymentPoll(f: Fetch): (s: Step)
    ensures s.Ready? <==> f.Fetched? && f.resource.status.Some? && DeploymentReady(f.resource.status.value)
    ensures s.Propagate? <==> f.FetchFailed? || f.Unparsable? || (f.Fetched? && f.resource.status.None?)
    ensures s.Ready? ==> s.podWaits == []
  {
    WaitForPoll(DeploymentCheck, f)
  }

  /** A pod poll stops with success exactly on a fetched pod whose containers are all ready. */
  function PodPoll(f: Fetch): (s: Step)
    ensures s.Ready? <==> f.Fetched? && f.resource.status.Some? && PodReady(f.resource.status.value)
    ensures s.Propagate? <==> f.FetchFailed? || f.Unparsable? || (f.Fetched? && f.resource.status.None?)
    ensures s.Ready? ==> s.podWaits == []
  {
    WaitForPoll(PodCheck, f)
  }

  /**
   * A stateful-set poll that succeeds with `expectPods >= 0` has issued the
   * pod waits for ordinals `0 .. expectPods-1`, in order; one that does not
   * succeed has issued none.
   */
  function StatefulSetPoll(name: string, expectPods: int, f: Fetch): (s: Step)
    ensures s.Ready? <==> f.Fetched? && StatefulSetCheck(name, expectPods, f.resource).Holds?
    ensures s.Ready? ==>
      |s.podWaits| == (if expectPods >= 0 then expectPods else 0) &&
      forall i :: 0 <= i < |s.podWaits| ==> s.podWaits[i] == PodName(name, i)
    ensures s.Propagate? <==>
      f.FetchFailed? || f.Unparsable? ||
      (f.Fetched? && (f.resource.status.None? || f.resource.status.value.replicas.None?))
  {
    WaitForPoll(r => StatefulSetCheck(name, expectPods, r), f)
  }

  /**
   * A creation poll succeeds on any fetched resource, retries on an absent
   * one, and propagates a failed `get` or unparsable output.
   */
  function CreationPoll(f: Fetch): (s: Step)
    ensures s.Ready? <==> f.Fetched?
    ensures s.NotReady? <==> f.NotFound?
    ensures s.Propagate? <==> f.FetchFailed? || f.Unparsable?
    ensures s.Ready? ==> s.podWaits == []
  {
    WaitForPoll(CreationCheck, f)
  }

  /**
   * The poll lambda of `waitForResourceDeletion`: the fetch is a plain `get`
   * whose output is not read, so any successful fetch means "not yet".
   */
  function DeletionPoll(f: Fetch): (s: Step)
    ensures s.Ready? <==> f.NotFound?
    ensures s.NotReady? <==> f.Fetched? || f.Unparsable?
    ensures s.Propagate? <==> f.FetchFailed?
    ensures s.Ready? ==> s.podWaits == []
  {
    match f
    case NotFound => Ready([])
    case FetchFailed(e) => Propagate(ExecFault(e))
    case _ => NotReady
  }

  /**
   * The poll lambda of `waitForResourceUpdate(startTime)`: ready once the
   * creation timestamp is strictly after `startTime`. A timestamp that is
   * absent or cannot be parsed reaches `Date.before` as null.
   */
  function UpdatePoll(startTime: int, f: Fetch): (s: Step)
    ensures s.Ready? <==> f.Fetched? && f.resource.creationTimestamp.Some? && startTime < f.resource.creationTimestamp.value
    ensures f.NotFound? ==> s == NotReady
    ensures s.Propagate? <==> !f.NotFound? && (f.Fetched? ==> f.resource.creationTimestamp.None?)
    ensures s.Ready? ==> s.podWaits == []
  {
    match f
    case NotFound => NotReady
    case FetchFailed(e) => Propagate(ExecFault(e))
    case Unparsable => Propagate(ParseFault)
    case Fetched(r) =>
      match r.creationTimestamp
      case None => Propagate(NullDereference)
      case Some(created) => if startTime < created then Ready([]) else NotReady
  }

  /**
   * On a fetch that succeeds or finds nothing, the deletion poll decides the
   * opposite of the creation poll.
   */
  lemma DeletionInvertsCreation(f: Fetch)
    requires f.Fetched? || f.NotFound?
    ensures DeletionPoll(f).Ready? <==> CreationPoll(f).NotReady?
    ensures DeletionPoll(f).NotReady? <==> CreationPoll(f).Ready?
  {
  }

  /** Only the deletion poll treats an absent resource as done; every other poll retries. */
  lemma NotFoundKeepsPolling(name: string, expectPods: int, startTime: int)
    ensures DeploymentPoll(NotFound) == NotReady && PodPoll(NotFound) == NotReady
    ensures StatefulSetPoll(name, expectPods, NotFound) == NotReady && CreationPoll(NotFound) == NotReady
    ensures UpdatePoll(startTime, NotFound) == NotReady
    ensures DeletionPoll(NotFound) == Ready([])
  {
  }
}
