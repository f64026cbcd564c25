// The verdict on whether the tenant's ExtProc rollout serves one overlay
// revision only, computed from a snapshot of the cluster.
module Rollout {
  import opened Wrappers
  import opened Overlays

  type Uid = string

  datatype Deployment = Deployment(
    uid: Uid, managed: bool, externalModelApp: bool, configHash: string,
    generation: int, observedGeneration: int, replicas: Option<int>,
    statusReplicas: int, updated: int, ready: int, available: int, unavailable: int,
    terminating: Option<int>, selectorEmpty: bool)

  // digest is the hash of the mounted extproc.yaml, None when the key is empty.
  datatype ConfigMap = ConfigMap(managed: bool, digest: Option<string>)

  datatype ReplicaSet = ReplicaSet(
    uid: Uid, controller: Option<Uid>, revision: int, configHash: string,
    replicas: int, ready: int, available: int)

  // A log line without "accepted_revision", one that reports both revisions,
  // or one that mentions them but does not parse.
  datatype LogLine = Other | Report(accepted: Revision, serving: Revision) | Garbled

  // logs is None when reading the pod's log failed.
  datatype Pod = Pod(
    uid: Uid, terminal: bool, controller: Option<Uid>, deleting: bool, ready: bool,
    logs: Option<seq<LogLine>>)

  datatype Target = Target(isPod: bool, uid: Uid)

  datatype Endpoint = Endpoint(ready: Option<bool>, serving: Option<bool>, target: Option<Target>)

  datatype Snapshot = Snapshot(
    deployment: Option<Deployment>, config: Option<ConfigMap>,
    replicaSets: seq<ReplicaSet>, pods: seq<Pod>, slices: seq<seq<Endpoint>>)

  datatype Verdict = Safe | Unsafe | Unknown

  /******* What each check means *******/

  function Replicas(d: Deployment): int {
    if d.replicas.Some? then d.replicas.value else 1
  }

  predicate DeploymentSettled(s: Snapshot, hash: string) {
    && s.deployment.Some?
    && var d := s.deployment.value;
    && d.managed && d.externalModelApp
    && hash != "" && d.configHash == hash
    && s.config.Some? && s.config.value.managed && s.config.value.digest == Some(hash)
    && d.observedGeneration == d.generation
    && Replicas(d) > 0
    && d.statusReplicas == d.updated == d.ready == d.available == Replicas(d)
    && d.unavailable == 0
    && (d.terminating.Some? ==> d.terminating.value == 0)
    && !d.selectorEmpty
  }

  predicate Owned(rs: ReplicaSet, d: Deployment) {
    rs.controller == Some(d.uid)
  }

  // The first owned ReplicaSet with the greatest revision above -1.
  ghost predicate IsNewest(sets: seq<ReplicaSet>, d: Deployment, i: int) {
    && 0 <= i < |sets|
    && Owned(sets[i], d)
    && sets[i].revision > -1
    && (forall k :: 0 <= k < |sets| && Owned(sets[k], d) ==> sets[k].revision <= sets[i].revision)
    && (forall k :: 0 <= k < i && Owned(sets[k], d) ==> sets[k].revision < sets[i].revision)
  }

  // Only the current ReplicaSet runs pods, with this configuration.
  ghost predicate OnlyCurrentRuns(sets: seq<ReplicaSet>, d: Deployment, current: ReplicaSet, hash: string) {
    && current.configHash == hash
    && current.replicas == current.ready == current.available == Replicas(d)
    && forall k :: 0 <= k < |sets| && Owned(sets[k], d) && sets[k].uid != current.uid ==>
         sets[k].replicas == sets[k].ready == sets[k].available == 0
  }

  // The last line that mentions revisions decides.
  function LastReport(lines: seq<LogLine>): Option<LogLine> {
    if lines == [] then None
    else if lines[|lines| - 1].Other? then LastReport(lines[..|lines| - 1])
    else Some(lines[|lines| - 1])
  }

  function PodServes(pod: Pod, revision: Revision): Verdict {
    if pod.logs.None? then Unknown
    else match LastReport(pod.logs.value)
      case Some(Report(accepted, serving)) => if accepted == revision && serving == revision then Safe else Unsafe
      case _ => Unknown
  }

  // A non-terminal pod is good when it is a live, ready pod of the current
  // ReplicaSet that last reported the revision. uid is the ReplicaSet's.
  predicate LivePodOf(pod: Pod, uid: Uid) {
    pod.controller == Some(uid) && !pod.deleting && pod.ready
  }

  predicate PodGood(pod: Pod, uid: Uid, revision: Revision) {
    pod.terminal || (LivePodOf(pod, uid) && PodServes(pod, revision).Safe?)
  }

  function CurrentPods(pods: seq<Pod>): set<Uid> {
    set i | 0 <= i < |pods| && !pods[i].terminal :: pods[i].uid
  }

  // readiness is unknown or true, or the endpoint still serves.
  predicate TakesTraffic(e: Endpoint) {
    e.ready != Some(false) || e.serving == Some(true)
  }

  predicate TargetsOneOf(e: Endpoint, pods: set<Uid>) {
    e.target.Some? && e.target.value.isPod && e.target.value.uid != "" && e.target.value.uid in pods
  }

  function AllEndpoints(slices: seq<seq<Endpoint>>): seq<Endpoint> {
    if slices == [] then [] else slices[0] + AllEndpoints(slices[1..])
  }

  ghost predicate EndpointsMatch(endpoints: seq<Endpoint>, pods: set<Uid>) {
    && (forall i :: 0 <= i < |endpoints| && TakesTraffic(endpoints[i]) ==> TargetsOneOf(endpoints[i], pods))
    && (forall p :: p in pods ==> exists i ::
         0 <= i < |endpoints| && TakesTraffic(endpoints[i]) && endpoints[i].target.value.uid == p)
  }

  ghost predicate PodsSettled(s: Snapshot, d: Deployment, hash: string, revision: Revision, i: int) {
    && IsNewest(s.replicaSets, d, i)
    && OnlyCurrentRuns(s.replicaSets, d, s.replicaSets[i], hash)
    && forall k :: 0 <= k < |s.pods| ==> PodGood(s.pods[k], s.replicaSets[i].uid, revision)
  }

  ghost predicate PodsUndecided(s: Snapshot, d: Deployment, hash: string, revision: Revision, i: int, k: int) {
    && IsNewest(s.replicaSets, d, i)
    && OnlyCurrentRuns(s.replicaSets, d, s.replicaSets[i], hash)
    && FirstUndecided(s.pods, s.replicaSets[i].uid, revision, k)
  }

  // The declarative meaning of a safe verdict.
  ghost predicate RolloutSafe(s: Snapshot, hash: string, revision: Revision) {
    && DeploymentSettled(s, hash)
    && var d := s.deployment.value;
    && (exists i :: PodsSettled(s, d, hash, revision, i))
    && |CurrentPods(s.pods)| == Replicas(d)
    && s.slices != []
    && EndpointsMatch(AllEndpoints(s.slices), CurrentPods(s.pods))
  }

  // Unreadable logs of an otherwise good pod, before any pod that decides.
  ghost predicate LogsUndecided(s: Snapshot, hash: string, revision: Revision) {
    && DeploymentSettled(s, hash)
    && var d := s.deployment.value;
    && exists i, k :: PodsUndecided(s, d, hash, revision, i, k)
  }

  ghost predicate FirstUndecided(pods: seq<Pod>, uid: Uid, revision: Revision, k: int) {
    && 0 <= k < |pods|
    && !pods[k].terminal && LivePodOf(pods[k], uid) && PodServes(pods[k], revision).Unknown?
    && forall j :: 0 <= j < k ==> PodGood(pods[j], uid, revision)
  }

  /******* The checks as the controller runs them *******/

  method ReadServingRevision(pod: Pod, revision: Revision) returns (verdict: Verdict)
    ensures verdict == PodServes(pod, revision)
  {
    if pod.logs.None? {
      return Unknown;
    }
    var lines := pod.logs.value;
    var index := |lines|;
    assert lines[..index] == lines;
    while index > 0
      invariant 0 <= index <= |lines|
      invariant LastReport(lines) == LastReport(lines[..index])
    {
      index := index - 1;
      assert lines[..index + 1][..index] == lines[..index];
      match lines[index]
      case Other =>
      case Garbled => return Unknown;
      case Report(accepted, serving) =>
        return if accepted == revision && serving == revision then Safe else Unsafe;
    }
    return Unknown;
  }

  method FindCurrent(sets: seq<ReplicaSet>, d: Deployment) returns (current: Option<int>)
    ensures current.Some? ==> IsNewest(sets, d, current.value)
    ensures current.None? ==> forall i :: !IsNewest(sets, d, i)
  {
    current := None;
    var greatest := -1;
    for i := 0 to |sets|
      invariant current.None? ==>
        greatest == -1 && forall k :: 0 <= k < i && Owned(sets[k], d) ==> sets[k].revision <= -1
      invariant current.Some? ==>
        current.value < i && IsNewest(sets[..i], d, current.value) && greatest == sets[current.value].revision
    {
      if Owned(sets[i], d) && sets[i].revision > greatest {
        greatest, current := sets[i].revision, Some(i);
      }
    }
    assert sets[..|sets|] == sets;
  }

  method PodsSafe(s: Snapshot, d: Deployment, hash: string, revision: Revision) returns (verdict: Verdict,
                  pods: set<Uid>)
    requires s.deployment == Some(d) && DeploymentSettled(s, hash)
    ensures verdict.Safe? <==>
      && (exists i :: PodsSettled(s, d, hash, revision, i))
      && |CurrentPods(s.pods)| == Replicas(d)
    ensures verdict.Safe? ==> pods == CurrentPods(s.pods)
    ensures verdict.Unknown? <==> LogsUndecided(s, hash, revision)
  {
    pods := {};
    var found := FindCurrent(s.replicaSets, d);
    if found.None? {
      return Unsafe, {};
    }
    var current := s.replicaSets[found.value];
    assert forall i :: IsNewest(s.replicaSets, d, i) ==> i == found.value by {
      forall i | IsNewest(s.replicaSets, d, i) ensures i == found.value {
        assert s.replicaSets[i].revision == current.revision;
      }
    }
    if || current.configHash != hash || current.replicas != Replicas(d)
       || current.ready != Replicas(d) || current.available != Replicas(d) {
      return Unsafe, {};
    }
    for k := 0 to |s.replicaSets|
      invariant forall j :: 0 <= j < k && Owned(s.replicaSets[j], d) && s.replicaSets[j].uid != current.uid ==>
        s.replicaSets[j].replicas == s.replicaSets[j].ready == s.replicaSets[j].available == 0
    {
      var rs := s.replicaSets[k];
      if Owned(rs, d) && rs.uid != current.uid && (rs.replicas != 0 || rs.ready != 0 || rs.available != 0) {
        return Unsafe, {};
      }
    }
    for k := 0 to |s.pods|
      invariant forall j :: 0 <= j < k ==> PodGood(s.pods[j], current.uid, revision)
      invariant pods == CurrentPods(s.pods[..k])
    {
      var pod := s.pods[k];
      assert s.pods[..k + 1] == s.pods[..k] + [pod];
      if !pod.terminal {
        if !LivePodOf(pod, current.uid) {
          assert !PodGood(s.pods[k], current.uid, revision);
          return Unsafe, pods;
        }
        verdict := ReadServingRevision(pod, revision);
        if verdict.Unknown? {
          assert PodsUndecided(s, d, hash, revision, found.value, k);
          return Unknown, pods;
        }
        if verdict.Unsafe? {
          assert !PodGood(s.pods[k], current.uid, revision);
          return Unsafe, pods;
        }
        pods := pods + {pod.uid};
      }
      assert CurrentPods(s.pods[..k + 1]) == pods;
    }
    assert s.pods[..|s.pods|] == s.pods;
    assert PodsSettled(s, d, hash, revision, found.value);
    return if |pods| == Replicas(d) then Safe else Unsafe, pods;
  }

  lemma {:induction false} EqualSizeSubset<T>(a: set<T>, b: set<T>)
    requires a <= b && |a| == |b|
    ensures a == b
  {
    assert b == a + (b - a);
    assert |b| == |a| + |b - a|;
  }

  function ServedUids(endpoints: seq<Endpoint>): set<Uid> {
    set i | 0 <= i < |endpoints| && TakesTraffic(endpoints[i]) && endpoints[i].target.Some? ::
      endpoints[i].target.value.uid
  }

  lemma {:induction false} ServedUidsAppend(endpoints: seq<Endpoint>, e: Endpoint)
    ensures ServedUids(endpoints + [e]) ==
      ServedUids(endpoints) + if TakesTraffic(e) && e.target.Some? then {e.target.value.uid} else {}
  {
    var longer := endpoints + [e];
    assert longer[|endpoints|] == e;
    assert forall i :: 0 <= i < |endpoints| ==> longer[i] == endpoints[i];
  }

  lemma {:induction false} MatchIffAllServed(endpoints: seq<Endpoint>, pods: set<Uid>)
    requires forall i :: 0 <= i < |endpoints| && TakesTraffic(endpoints[i]) ==> TargetsOneOf(endpoints[i], pods)
    ensures EndpointsMatch(endpoints, pods) <==> |ServedUids(endpoints)| == |pods|
  {
    var served := ServedUids(endpoints);
    assert served <= pods;
    if |served| == |pods| {
      EqualSizeSubset(served, pods);
    }
    if EndpointsMatch(endpoints, pods) {
      assert served == pods;
    }
  }

  lemma {:induction false} EndpointsPrefix(slices: seq<seq<Endpoint>>, i: nat)
    requires i < |slices|
    ensures AllEndpoints(slices[..i + 1]) == AllEndpoints(slices[..i]) + slices[i]
  {
    if i > 0 {
      EndpointsPrefix(slices[1..], i - 1);
      assert slices[1..][..i] == slices[..i + 1][1..];
      assert slices[1..][..i - 1] == slices[..i][1..];
    } else {
      assert slices[..1][1..] == [];
    }
  }

  lemma {:induction false} PrefixOfEndpoints(slices: seq<seq<Endpoint>>, i: nat)
    requires i <= |slices|
    ensures AllEndpoints(slices[..i]) <= AllEndpoints(slices)
    decreases |slices| - i
  {
    if i < |slices| {
      EndpointsPrefix(slices, i);
      PrefixOfEndpoints(slices, i + 1);
    } else {
      assert slices[..i] == slices;
    }
  }

  method EndpointsSafe(slices: seq<seq<Endpoint>>, pods: set<Uid>) returns (safe: bool)
    ensures safe <==> slices != [] && EndpointsMatch(AllEndpoints(slices), pods)
  {
    if slices == [] {
      return false;
    }
    var serving: set<Uid> := {};
    for i := 0 to |slices|
      invariant forall k :: 0 <= k < |AllEndpoints(slices[..i])| && TakesTraffic(AllEndpoints(slices[..i])[k]) ==>
        TargetsOneOf(AllEndpoints(slices[..i])[k], pods)
      invariant serving == ServedUids(AllEndpoints(slices[..i]))
    {
      ghost var done := AllEndpoints(slices[..i]);
      EndpointsPrefix(slices, i);
      PrefixOfEndpoints(slices, i + 1);
      assert done + slices[i][..0] == done;
      for j := 0 to |slices[i]|
        invariant forall k :: 0 <= k < j && TakesTraffic(slices[i][k]) ==> TargetsOneOf(slices[i][k], pods)
        invariant serving == ServedUids(done + slices[i][..j])
      {
        var e := slices[i][j];
        assert done + slices[i][..j + 1] == done + slices[i][..j] + [e];
        var readyOrUnknown := e.ready.None? || e.ready.value;
        var stillServing := e.serving.Some? && e.serving.value;
        if readyOrUnknown || stillServing {
          if !TargetsOneOf(e, pods) {
            ghost var at := |done| + j;
            assert AllEndpoints(slices)[at] == AllEndpoints(slices[..i + 1])[at] == e;
            return false;
          }
          serving := serving + {e.target.value.uid};
        }
        ServedUidsAppend(done + slices[i][..j], e);
      }
      assert slices[i][..|slices[i]|] == slices[i];
    }
    assert slices[..|slices|] == slices;
    MatchIffAllServed(AllEndpoints(slices), pods);
    return |serving| == |pods|;
  }

  method RolloutVerdict(s: Snapshot, hash: string, revision: Option<Revision>) returns (verdict: Verdict)
    ensures verdict.Safe? <==> revision.Some? && RolloutSafe(s, hash, revision.value)
    ensures verdict.Unknown? <==> revision.Some? && LogsUndecided(s, hash, revision.value)
  {
    if revision.None? || !DeploymentSettled(s, hash) {
      return Unsafe;
    }
    var pods;
    verdict, pods := PodsSafe(s, s.deployment.value, hash, revision.value);
    if verdict.Safe? {
      var safe := EndpointsSafe(s.slices, pods);
      verdict := if safe then Safe else Unsafe;
    }
  }

  /******* What a safe verdict guarantees *******/

  // Every endpoint that can take traffic is a live, ready pod of the newest
  // ReplicaSet whose last report is the revision, and those pods are as many
  // as the replica count.
  lemma {:induction false} SafeIsSound(s: Snapshot, hash: string, revision: Revision, e: int)
    requires RolloutSafe(s, hash, revision)
    requires 0 <= e < |AllEndpoints(s.slices)| && TakesTraffic(AllEndpoints(s.slices)[e])
    ensures exists i, k ::
      && IsNewest(s.replicaSets, s.deployment.value, i)
      && 0 <= k < |s.pods| && !s.pods[k].terminal
      && AllEndpoints(s.slices)[e].target == Some(Target(true, s.pods[k].uid))
      && LivePodOf(s.pods[k], s.replicaSets[i].uid)
      && s.pods[k].logs.Some?
      && LastReport(s.pods[k].logs.value) == Some(Report(revision, revision))
    ensures ServedUids(AllEndpoints(s.slices)) == CurrentPods(s.pods)
    ensures |ServedUids(AllEndpoints(s.slices))| == Replicas(s.deployment.value) > 0
  {
    var all := AllEndpoints(s.slices);
    assert TargetsOneOf(all[e], CurrentPods(s.pods));
    var k :| 0 <= k < |s.pods| && !s.pods[k].terminal && s.pods[k].uid == all[e].target.value.uid;
    var i :| PodsSettled(s, s.deployment.value, hash, revision, i);
    assert PodGood(s.pods[k], s.replicaSets[i].uid, revision);
    assert ServedUids(all) == CurrentPods(s.pods);
  }
}
