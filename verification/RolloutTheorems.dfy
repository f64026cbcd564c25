// What the rollout verdicts say of the objects they were computed from, and of
// the Deployment's pods over time.
module RolloutTheorems {
  import opened Overlays
  import opened Rollout
  import opened Wrappers

  // ----- the verdicts, object by object -----

  // The Deployment and the mounted ConfigMap are this controller's, and both
  // carry the expected configuration.
  predicate Carries(d: Deployment, config: ConfigMap, hash: string) {
    && hash != "" && d.managed && d.externalModelApp && d.configHash == hash
    && config.managed && config.digest == Some(hash)
  }

  // The status is about the current spec, and it counts n pods, all of the
  // current template, all ready and available, and none on its way out.
  predicate RolledOut(d: Deployment, n: int) {
    && d.observedGeneration == d.generation
    && n > 0 && d.replicas == (if d.replicas.Some? then Some(n) else None) && (d.replicas.None? ==> n == 1)
    && d.statusReplicas == n && d.updated == n && d.ready == n && d.available == n && d.unavailable == 0
    && d.terminating in {None, Some(0)} && !d.selectorEmpty
  }

  // Set i is the Deployment's first of the greatest revision, it has this
  // configuration and n ready pods, and its other sets have none.
  ghost predicate RunsOnly(sets: seq<ReplicaSet>, uid: Uid, hash: string, n: int, i: int) {
    && 0 <= i < |sets|
    && sets[i].controller == Some(uid) && sets[i].revision >= 0 && sets[i].configHash == hash
    && sets[i].replicas == n && sets[i].ready == n && sets[i].available == n
    && forall k :: 0 <= k < |sets| && sets[k].controller == Some(uid) ==>
         && sets[k].revision <= sets[i].revision && (k < i ==> sets[k].revision < sets[i].revision)
         && (sets[k].uid != sets[i].uid ==> sets[k].replicas == 0 && sets[k].ready == 0 && sets[k].available == 0)
  }

  // The line that counts: nothing after it mentions a revision.
  predicate LastSays(lines: seq<LogLine>, m: int) {
    0 <= m < |lines| && !lines[m].Other? && forall k :: m < k < |lines| ==> lines[k].Other?
  }

  ghost predicate ServesNow(pod: Pod, set_: Uid, revision: Revision) {
    && pod.controller == Some(set_) && !pod.deleting && pod.ready && pod.logs.Some?
    && exists m :: LastSays(pod.logs.value, m) && pod.logs.value[m] == Report(revision, revision)
  }

  // Nothing in what could be read of the log decides.
  ghost predicate Silent(pod: Pod, set_: Uid) {
    && !pod.terminal && pod.controller == Some(set_) && !pod.deleting && pod.ready
    && (pod.logs.Some? ==> forall m :: LastSays(pod.logs.value, m) ==> pod.logs.value[m].Garbled?)
  }

  // An endpoint the proxy may send to, unless it is known to be neither ready
  // nor serving.
  predicate MayServe(e: Endpoint) {
    e.ready.None? || e.ready.value || (e.serving.Some? && e.serving.value)
  }

  lemma {:induction false} LastReportIsLast(lines: seq<LogLine>, m: int)
    requires LastSays(lines, m)
    ensures LastReport(lines) == Some(lines[m])
  {
    if m < |lines| - 1 { LastReportIsLast(lines[..|lines| - 1], m); }
  }

  lemma {:induction false} LastReportExists(lines: seq<LogLine>)
    ensures LastReport(lines).Some? <==> exists m :: LastSays(lines, m)
  {
    if lines != [] {
      if lines[|lines| - 1].Other? {
        var front := lines[..|lines| - 1];
        LastReportExists(front);
        if m :| LastSays(front, m) { assert LastSays(lines, m); }
        if m :| LastSays(lines, m) { assert LastSays(front, m); }
      } else {
        assert LastSays(lines, |lines| - 1);
      }
    }
  }

  lemma {:induction false} ServesIffLastSays(pod: Pod, set_: Uid, revision: Revision)
    ensures LivePodOf(pod, set_) && PodServes(pod, revision).Safe? <==> ServesNow(pod, set_, revision)
    ensures !pod.terminal && LivePodOf(pod, set_) && PodServes(pod, revision).Unknown? <==> Silent(pod, set_)
  {
    if pod.logs.Some? {
      LastReportExists(pod.logs.value);
      forall m | LastSays(pod.logs.value, m) ensures LastReport(pod.logs.value) == Some(pod.logs.value[m]) {
        LastReportIsLast(pod.logs.value, m);
      }
    }
  }

  lemma {:induction false} NewestIsExact(s: Snapshot, d: Deployment, hash: string, i: int)
    ensures IsNewest(s.replicaSets, d, i) && OnlyCurrentRuns(s.replicaSets, d, s.replicaSets[i], hash)
       <==> RunsOnly(s.replicaSets, d.uid, hash, Replicas(d), i)
  {
  }

  // Every pod that still runs serves the revision from ReplicaSet i.
  ghost predicate AllServe(s: Snapshot, revision: Revision, i: int)
    requires 0 <= i < |s.replicaSets|
  {
    forall k :: 0 <= k < |s.pods| && !s.pods[k].terminal ==> ServesNow(s.pods[k], s.replicaSets[i].uid, revision)
  }

  // Pod k is silent, and the pods before it serve.
  ghost predicate SilentAt(s: Snapshot, revision: Revision, i: int, k: int)
    requires 0 <= i < |s.replicaSets|
  {
    && 0 <= k < |s.pods| && Silent(s.pods[k], s.replicaSets[i].uid)
    && forall j :: 0 <= j < k && !s.pods[j].terminal ==> ServesNow(s.pods[j], s.replicaSets[i].uid, revision)
  }

  function Running(pods: seq<Pod>): set<Uid> {
    set i | 0 <= i < |pods| && !pods[i].terminal :: pods[i].uid
  }

  // Some endpoint that takes traffic targets the pod.
  predicate Reaches(slices: seq<seq<Endpoint>>, uid: Uid) {
    exists a, b ::
      && 0 <= a < |slices| && 0 <= b < |slices[a]| && MayServe(slices[a][b])
      && slices[a][b].target == Some(Target(true, uid))
  }

  // Traffic goes to running pods only, and reaches each of them.
  ghost predicate TrafficIsTo(slices: seq<seq<Endpoint>>, pods: set<Uid>) {
    && slices != []
    && (forall a, b :: 0 <= a < |slices| && 0 <= b < |slices[a]| && MayServe(slices[a][b]) ==>
          exists uid :: uid in pods && uid != "" && slices[a][b].target == Some(Target(true, uid)))
    && forall uid :: uid in pods ==> Reaches(slices, uid)
  }

  lemma {:induction false} EndpointIn(slices: seq<seq<Endpoint>>, e: Endpoint)
    ensures e in AllEndpoints(slices) <==> exists a :: 0 <= a < |slices| && e in slices[a]
  {
    if slices != [] {
      EndpointIn(slices[1..], e);
      if a :| 0 <= a < |slices| && e in slices[a] {
        if a > 0 { assert e in slices[1..][a - 1]; }
      }
      if a :| 0 <= a < |slices[1..]| && e in slices[1..][a] { assert e in slices[a + 1]; }
    }
  }

  lemma {:induction false} EndpointAt(slices: seq<seq<Endpoint>>, i: nat) returns (a: nat, b: nat)
    requires i < |AllEndpoints(slices)|
    ensures a < |slices| && b < |slices[a]| && slices[a][b] == AllEndpoints(slices)[i]
  {
    EndpointIn(slices, AllEndpoints(slices)[i]);
    a :| 0 <= a < |slices| && AllEndpoints(slices)[i] in slices[a];
    b :| 0 <= b < |slices[a]| && slices[a][b] == AllEndpoints(slices)[i];
  }

  lemma {:induction false} EndpointOf(slices: seq<seq<Endpoint>>, a: nat, b: nat) returns (i: nat)
    requires a < |slices| && b < |slices[a]|
    ensures i < |AllEndpoints(slices)| && AllEndpoints(slices)[i] == slices[a][b]
  {
    EndpointIn(slices, slices[a][b]);
    assert slices[a][b] in AllEndpoints(slices);
    i :| 0 <= i < |AllEndpoints(slices)| && AllEndpoints(slices)[i] == slices[a][b];
  }

  lemma {:induction false} MatchedIsTo(slices: seq<seq<Endpoint>>, pods: set<Uid>)
    requires slices != [] && EndpointsMatch(AllEndpoints(slices), pods)
    ensures TrafficIsTo(slices, pods)
  {
    var all := AllEndpoints(slices);
    forall a, b | 0 <= a < |slices| && 0 <= b < |slices[a]| && MayServe(slices[a][b])
      ensures exists uid :: uid in pods && uid != "" && slices[a][b].target == Some(Target(true, uid))
    {
      var i := EndpointOf(slices, a, b);
      assert TargetsOneOf(all[i], pods);
    }
    forall uid | uid in pods ensures Reaches(slices, uid) {
      var i: int :| 0 <= i < |all| && TakesTraffic(all[i]) && TargetsOneOf(all[i], pods)
        && all[i].target.value.uid == uid;
      var a, b := EndpointAt(slices, i);
      assert MayServe(slices[a][b]);
    }
  }

  lemma {:induction false} ToIsMatched(slices: seq<seq<Endpoint>>, pods: set<Uid>)
    requires TrafficIsTo(slices, pods)
    ensures EndpointsMatch(AllEndpoints(slices), pods)
  {
    var all := AllEndpoints(slices);
    forall i | 0 <= i < |all| && TakesTraffic(all[i]) ensures TargetsOneOf(all[i], pods) {
      var a, b := EndpointAt(slices, i);
      assert MayServe(slices[a][b]);
    }
    forall uid | uid in pods
      ensures exists i :: 0 <= i < |all| && TakesTraffic(all[i]) && all[i].target.value.uid == uid
    {
      assert Reaches(slices, uid);
      var a, b :| 0 <= a < |slices| && 0 <= b < |slices[a]| && MayServe(slices[a][b])
        && slices[a][b].target == Some(Target(true, uid));
      var i := EndpointOf(slices, a, b);
      assert TakesTraffic(all[i]);
    }
  }

  // The verdict is safe exactly when the objects say so.
  lemma {:induction false} SafeIsExact(s: Snapshot, hash: string, revision: Revision)
    ensures RolloutSafe(s, hash, revision) <==>
      && s.deployment.Some? && s.config.Some?
      && Carries(s.deployment.value, s.config.value, hash)
      && exists i :: RunsOnly(s.replicaSets, s.deployment.value.uid, hash, |Running(s.pods)|, i)
           && RolledOut(s.deployment.value, |Running(s.pods)|) && AllServe(s, revision, i)
           && TrafficIsTo(s.slices, Running(s.pods))
  {
    assert Running(s.pods) == CurrentPods(s.pods);
    var pods := CurrentPods(s.pods);
    if s.slices != [] && EndpointsMatch(AllEndpoints(s.slices), pods) { MatchedIsTo(s.slices, pods); }
    if TrafficIsTo(s.slices, pods) { ToIsMatched(s.slices, pods); }
    if s.deployment.Some? {
      var d := s.deployment.value;
      forall i ensures IsNewest(s.replicaSets, d, i) && OnlyCurrentRuns(s.replicaSets, d, s.replicaSets[i], hash)
        <==> RunsOnly(s.replicaSets, d.uid, hash, Replicas(d), i)
      {
        NewestIsExact(s, d, hash, i);
      }
      forall pod, uid ensures LivePodOf(pod, uid) && PodServes(pod, revision).Safe? <==> ServesNow(pod, uid, revision) {
        ServesIffLastSays(pod, uid, revision);
      }
      forall i | 0 <= i < |s.replicaSets|
        ensures PodsSettled(s, d, hash, revision, i) <==>
          RunsOnly(s.replicaSets, d.uid, hash, Replicas(d), i) && AllServe(s, revision, i)
      {
      }
    }
  }

  ghost predicate UndecidedAt(s: Snapshot, hash: string, revision: Revision, n: int, i: int, k: int) {
    && s.deployment.Some? && s.config.Some?
    && Carries(s.deployment.value, s.config.value, hash) && RolledOut(s.deployment.value, n)
    && RunsOnly(s.replicaSets, s.deployment.value.uid, hash, n, i) && SilentAt(s, revision, i, k)
  }

  // It is unknown exactly when all but the logs is as a safe verdict has it,
  // as far as the first pod whose log does not tell.
  lemma {:induction false} UnknownIsExact(s: Snapshot, hash: string, revision: Revision)
    ensures LogsUndecided(s, hash, revision) <==> exists n, i, k :: UndecidedAt(s, hash, revision, n, i, k)
  {
    if s.deployment.Some? {
      var d := s.deployment.value;
      forall i ensures IsNewest(s.replicaSets, d, i) && OnlyCurrentRuns(s.replicaSets, d, s.replicaSets[i], hash)
        <==> RunsOnly(s.replicaSets, d.uid, hash, Replicas(d), i)
      {
        NewestIsExact(s, d, hash, i);
      }
      forall i, k ensures DeploymentSettled(s, hash) && PodsUndecided(s, d, hash, revision, i, k)
        <==> UndecidedAt(s, hash, revision, Replicas(d), i, k)
      {
        if 0 <= i < |s.replicaSets| { FirstIsSilent(s, revision, i, k); }
      }
    }
  }

  lemma {:induction false} FirstIsSilent(s: Snapshot, revision: Revision, i: int, k: int)
    requires 0 <= i < |s.replicaSets|
    ensures FirstUndecided(s.pods, s.replicaSets[i].uid, revision, k) <==> SilentAt(s, revision, i, k)
  {
    forall pod, uid
      ensures LivePodOf(pod, uid) && PodServes(pod, revision).Safe? <==> ServesNow(pod, uid, revision)
      ensures !pod.terminal && LivePodOf(pod, uid) && PodServes(pod, revision).Unknown? <==> Silent(pod, uid)
    {
      ServesIffLastSays(pod, uid, revision);
    }
  }

  // ----- why the observed generation counts -----

  // A pod as the Deployment controller counts it: the template it was made
  // from, and its conditions.
  datatype Made = Made(template: string, ready: bool, available: bool)

  datatype Status = Status(observed: int, replicas: int, updated: int, ready: int, available: int, unavailable: int)

  datatype Controlled = Controlled(template: string, replicas: int, generation: int, pods: seq<Made>, status: Status)

  // An edit of the spec starts a generation; pods come, go and change; and the
  // controller reports what it counts, against the template of the moment.
  datatype Happening = Edited(template: string, replicas: int) | PodsChanged(pods: seq<Made>) | Reported

  function Counted(pods: seq<Made>, counts: Made -> bool): nat {
    if pods == [] then 0 else (if counts(pods[0]) then 1 else 0) + Counted(pods[1..], counts)
  }

  function StatusOf(c: Controlled): Status {
    var available := Counted(c.pods, (p: Made) => p.available);
    Status(c.generation, |c.pods|, Counted(c.pods, (p: Made) => p.template == c.template),
           Counted(c.pods, (p: Made) => p.ready), available, |c.pods| - available)
  }

  function After(c: Controlled, h: Happening): Controlled {
    match h
    case Edited(template, replicas) =>
      c.(template := template, replicas := replicas, generation := c.generation + 1)
    case PodsChanged(pods) => c.(pods := pods)
    case Reported => c.(status := StatusOf(c))
  }

  datatype History = History(states: seq<Controlled>, happened: seq<Happening>)

  // From a Deployment whose first generation is not observed yet.
  ghost predicate ValidHistory(h: History) {
    && |h.states| == |h.happened| + 1
    && h.states[0].status.observed < h.states[0].generation
    && forall i :: 0 <= i < |h.happened| ==> h.states[i + 1] == After(h.states[i], h.happened[i])
  }

  // What a reader of the Deployment sees of it.
  predicate Shows(d: Deployment, c: Controlled) {
    && d.generation == c.generation && d.replicas == Some(c.replicas)
    && d.observedGeneration == c.status.observed && d.statusReplicas == c.status.replicas
    && d.updated == c.status.updated && d.ready == c.status.ready
    && d.available == c.status.available && d.unavailable == c.status.unavailable
  }

  // A moment since the last edit at which the status was true.
  ghost predicate TrueAt(h: History, i: int, t: int)
    requires 0 <= i < |h.states|
  {
    && 0 <= t <= i && h.states[t].generation == h.states[i].generation
    && h.states[t].template == h.states[i].template && h.states[t].replicas == h.states[i].replicas
    && h.states[i].status == StatusOf(h.states[t])
  }

  lemma {:induction false} StatusIsDated(h: History, i: nat)
    requires ValidHistory(h) && i < |h.states|
    ensures h.states[i].status.observed <= h.states[i].generation
    ensures h.states[i].status.observed == h.states[i].generation ==> exists t :: TrueAt(h, i, t)
  {
    if i > 0 {
      StatusIsDated(h, i - 1);
      var c := h.states[i];
      assert c == After(h.states[i - 1], h.happened[i - 1]);
      if h.happened[i - 1].Reported? {
        assert TrueAt(h, i, i);
      } else if c.status.observed == c.generation {
        var t :| TrueAt(h, i - 1, t);
        assert TrueAt(h, i, t);
      }
    }
  }

  lemma {:induction false} CountedAll(pods: seq<Made>, counts: Made -> bool)
    ensures Counted(pods, counts) <= |pods|
    ensures Counted(pods, counts) == |pods| <==> forall p :: p in pods ==> counts(p)
  {
    if pods != [] {
      CountedAll(pods[1..], counts);
      assert pods == [pods[0]] + pods[1..];
    }
  }

  // At such a moment every pod was the current template's, ready and available,
  // and they were as many as the spec asks for.
  ghost predicate WholeAt(h: History, i: int, t: int)
    requires 0 <= i < |h.states|
  {
    && 0 <= t <= i && |h.states[t].pods| == h.states[i].replicas
    && forall p :: p in h.states[t].pods ==> p.template == h.states[i].template && p.ready && p.available
  }

  // A safe verdict's counts describe the current template: since the last edit
  // of the Deployment there was a moment at which all its pods ran it.
  lemma {:induction false} SafeCountsAreCurrent(s: Snapshot, hash: string, revision: Revision, h: History, i: nat)
    requires ValidHistory(h) && i < |h.states|
    requires RolloutSafe(s, hash, revision) && Shows(s.deployment.value, h.states[i])
    ensures exists t :: WholeAt(h, i, t) && forall u :: t <= u < i ==> !h.happened[u].Edited?
  {
    SafeIsExact(s, hash, revision);
    StatusIsDated(h, i);
    var t :| TrueAt(h, i, t);
    var c := h.states[t];
    CountedAll(c.pods, (p: Made) => p.template == c.template);
    CountedAll(c.pods, (p: Made) => p.ready);
    CountedAll(c.pods, (p: Made) => p.available);
    assert WholeAt(h, i, t);
    forall u | t <= u < i ensures !h.happened[u].Edited? {
      GenerationsRise(h, t, u);
      GenerationsRise(h, u + 1, i);
    }
  }

  lemma {:induction false} GenerationsRise(h: History, i: nat, j: nat)
    requires ValidHistory(h) && i <= j < |h.states|
    ensures h.states[i].generation <= h.states[j].generation
  {
    if i < j {
      GenerationsRise(h, i, j - 1);
      assert h.states[j] == After(h.states[j - 1], h.happened[j - 1]);
    }
  }

  // Every count alone can be right and no pod run the current template: after
  // an edit, until the controller has observed it.
  lemma {:induction false} StaleCountsMislead(old_: string, new_: string) returns (h: History, d: Deployment)
    requires old_ != new_
    ensures ValidHistory(h) && Shows(d, h.states[|h.happened|])
    ensures RolledOut(d.(observedGeneration := d.generation), 1) && !RolledOut(d, 1)
    ensures forall t, p :: 0 <= t < |h.states| && p in h.states[t].pods ==>
      p.template != h.states[|h.happened|].template
  {
    var none := Status(0, 0, 0, 0, 0, 0);
    var all := [Made(old_, true, true)];
    var first := Controlled(old_, 1, 1, all, none);
    CountedAll(all, (p: Made) => p.template == first.template);
    CountedAll(all, (p: Made) => p.ready);
    CountedAll(all, (p: Made) => p.available);
    var second := After(first, Reported);
    var third := After(second, Edited(new_, 1));
    h := History([first, second, third], [Reported, Edited(new_, 1)]);
    d := Deployment("", true, true, "", 2, 1, Some(1), 1, 1, 1, 1, 0, None, false);
  }
}
