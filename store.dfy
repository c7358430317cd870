/**
 * The repository store: one state owner whose reducers edit the pod tree,
 * track dirtiness, hold the queue of structural edits that still have to
 * reach the server, and keep the kernel and session bookkeeping. Every
 * dispatch is a method call; a reducer that throws leaves the state as it
 * was, which each method reports as `raised`.
 */
module RepoStore {
  import opened Wrappers
  import opened PodModel
  import opened PodTree
  import opened Normalize

  const AddPodType: string := "repo/addPod"
  const DeletePodType: string := "repo/deletePod"

  /** A dispatched action as the queue holds it, with the payload the middleware prepared. */
  datatype Action =
    | AddPodAction(id: string, parent: Option<string>, index: int, podType: string)
    | DeletePodAction(id: string, toDelete: seq<string>)
    | OtherAction(name: string)

  function ActionType(a: Action): string {
    match a
    case AddPodAction(_, _, _, _) => AddPodType
    case DeletePodAction(_, _) => DeletePodType
    case OtherAction(name) => name
  }

  /** `isPodQueueAction`: whether the action's type is one of the two structural edits. */
  predicate IsPodQueueAction(a: Action)
  {
    ActionType(a) in [AddPodType, DeletePodType]
  }

  /** A `spawn` emission on a runtime socket: the session and the language. */
  datatype Spawn = Spawn(sessionId: string, lang: string)

  /** The outcome of the repository query: an error report, or the server's pod list. */
  datatype LoadResponse = LoadErrors(message: string) | LoadData(serverPods: seq<ServerPod>)

  /** What a structurally valid server pod list looks like: no pod is the root and every child is listed. */
  predicate Loadable(input: seq<ServerPod>) {
    && (forall i | 0 <= i < |input| :: input[i].id != Root)
    && (forall i, c | 0 <= i < |input| && c in input[i].children :: c in ServerIds(input))
  }

  class Store {
    var reponame: Option<string>
    var username: Option<string>
    var repoLoaded: bool
    var pods: Pods
    var queue: seq<Action>
    var queueProcessing: bool
    var sessionId: string
    /** The runtime socket of each language, as an opaque token. */
    var sessionRuntime: map<string, nat>
    var runtimeConnected: bool
    /** The status of each kernel. */
    var kernels: map<string, string>
    /** Every `spawn` emitted, in order. */
    var spawns: seq<Spawn>
    /** Every queued action sent to the server, in order. */
    var requests: seq<Action>
    /** The queued actions the server has acknowledged, in order. */
    ghost var acked: seq<Action>
    /** Every action ever queued, in order. */
    ghost var enqueued: seq<Action>

    /**
     * The queue protocol: only structural edits are queued, the queue is
     * everything queued minus what was acknowledged, a drain is in flight
     * only for the queue's head, and the requests sent are the acknowledged
     * actions followed by the one in flight.
     */
    ghost predicate Valid()
      reads this`queue, this`queueProcessing, this`requests, this`acked, this`enqueued
    {
      && (forall i | 0 <= i < |queue| :: IsPodQueueAction(queue[i]))
      && enqueued == acked + queue
      && (queueProcessing ==> |queue| > 0)
      && requests == acked + (if queueProcessing then [queue[0]] else [])
    }

    /** The initial state, with the session id drawn by the caller. */
    constructor (initialSessionId: string)
      ensures Valid()
      ensures reponame == None && username == None && !repoLoaded
      ensures pods == map[] && queue == [] && !queueProcessing
      ensures sessionId == initialSessionId && sessionRuntime == map[] && !runtimeConnected
      ensures kernels == map["julia" := "NA", "racket" := "NA"]
      ensures spawns == [] && requests == []
    {
      reponame := None;
      username := None;
      repoLoaded := false;
      pods := map[];
      queue := [];
      queueProcessing := false;
      sessionId := initialSessionId;
      sessionRuntime := map[];
      runtimeConnected := false;
      kernels := map["julia" := "NA", "racket" := "NA"];
      spawns := [];
      requests := [];
      acked := [];
      enqueued := [];
    }

    // -------------------------------------------------------------------------
    // Session and kernel bookkeeping
    // -------------------------------------------------------------------------

    /** `resetSessionId`: a new session id; the runtimes stay. */
    method ResetSessionId(newId: string)
      modifies this`sessionId
      ensures sessionId == newId
    {
      sessionId := newId;
    }

    /**
     * `ensureSessionRuntime`: open a socket for `lang` and emit one spawn,
     * unless the language already has one, in which case nothing changes.
     */
    method EnsureSessionRuntime(lang: string, socket: nat)
      modifies this`sessionRuntime, this`spawns
      ensures lang in old(sessionRuntime) ==> sessionRuntime == old(sessionRuntime) && spawns == old(spawns)
      ensures lang !in old(sessionRuntime) ==>
        sessionRuntime == old(sessionRuntime)[lang := socket] && spawns == old(spawns) + [Spawn(sessionId, lang)]
      ensures lang in sessionRuntime
    {
      if lang !in sessionRuntime {
        spawns := spawns + [Spawn(sessionId, lang)];
        sessionRuntime := sessionRuntime[lang := socket];
      }
    }

    /** `setRepo`. */
    method SetRepo(newReponame: string, newUsername: string)
      modifies this`reponame, this`username
      ensures reponame == Some(newReponame) && username == Some(newUsername)
    {
      reponame := Some(newReponame);
      username := Some(newUsername);
    }

    /** `WS_STATUS`: set the status of a known kernel; an unknown language throws. */
    method WsStatus(lang: string, status: string) returns (raised: bool)
      modifies this`kernels
      ensures raised <==> lang !in old(kernels)
      ensures raised ==> kernels == old(kernels)
      ensures !raised ==> kernels == old(kernels)[lang := status]
    {
      if lang !in kernels { return true; }
      kernels := kernels[lang := status];
      return false;
    }

    /** `WS_CONNECTED`. */
    method WsConnected()
      modifies this`runtimeConnected
      ensures runtimeConnected
    {
      runtimeConnected := true;
    }

    /** `WS_DISCONNECTED`. */
    method WsDisconnected()
      modifies this`runtimeConnected
      ensures !runtimeConnected
    {
      runtimeConnected := false;
    }

    // -------------------------------------------------------------------------
    // Single-pod edits
    // -------------------------------------------------------------------------

    /** Replace the stored pod `id` by `q`; every other pod stays. */
    method PutPod(id: string, q: Pod)
      requires id in pods
      modifies this`pods
      ensures pods == old(pods)[id := q]
      ensures pods.Keys == old(pods).Keys
    {
      pods := pods[id := q];
    }

    /** `setPodContent`: set the content, then recompute the status; a missing pod throws. */
    method SetPodContent(id: string, content: Value) returns (raised: bool)
      modifies this`pods
      ensures raised <==> id !in old(pods)
      ensures raised ==> pods == old(pods)
      ensures !raised ==> pods == old(pods)[id := ComputePodStatus(old(pods)[id].(content := content))]
      ensures !raised ==> (pods[id].status == Some(Dirty) <==> pods[id].remoteHash != Some(HashPod(pods[id])))
    {
      if id !in pods { return true; }
      PutPod(id, ComputePodStatus(pods[id].(content := content)));
      return false;
    }

    /** `setPodType`. */
    method SetPodType(id: string, podType: string) returns (raised: bool)
      modifies this`pods
      ensures raised <==> id !in old(pods)
      ensures raised ==> pods == old(pods)
      ensures !raised ==> pods == old(pods)[id := ComputePodStatus(old(pods)[id].(podType := podType))]
      ensures !raised ==> (pods[id].status == Some(Dirty) <==> pods[id].remoteHash != Some(HashPod(pods[id])))
    {
      if id !in pods { return true; }
      PutPod(id, ComputePodStatus(pods[id].(podType := podType)));
      return false;
    }

    /** `setPodLang`. */
    method SetPodLang(id: string, lang: string) returns (raised: bool)
      modifies this`pods
      ensures raised <==> id !in old(pods)
      ensures raised ==> pods == old(pods)
      ensures !raised ==> pods == old(pods)[id := ComputePodStatus(old(pods)[id].(lang := lang))]
      ensures !raised ==> (pods[id].status == Some(Dirty) <==> pods[id].remoteHash != Some(HashPod(pods[id])))
    {
      if id !in pods { return true; }
      PutPod(id, ComputePodStatus(pods[id].(lang := lang)));
      return false;
    }

    /** `clearResults`: empty result and stdout, no error; the status is not recomputed. */
    method ClearResults(id: string) returns (raised: bool)
      modifies this`pods
      ensures raised <==> id !in old(pods)
      ensures raised ==> pods == old(pods)
      ensures !raised ==> pods == old(pods)[id := old(pods)[id].(result := Str(""), stdout := Str(""), error := NoError)]
    {
      if id !in pods { return true; }
      PutPod(id, pods[id].(result := Str(""), stdout := Str(""), error := NoError));
      return false;
    }

    /** `remoteUpdatePod` pending: the pod is being synchronised. */
    method RemoteUpdatePending(id: string) returns (raised: bool)
      modifies this`pods
      ensures raised <==> id !in old(pods)
      ensures raised ==> pods == old(pods)
      ensures !raised ==> pods == old(pods)[id := old(pods)[id].(status := Some(Syncing))]
    {
      if id !in pods { return true; }
      PutPod(id, pods[id].(status := Some(Syncing)));
      return false;
    }

    /**
     * `remoteUpdatePod` fulfilled: the pod's current fingerprint becomes the
     * acknowledged one and the pod is synced. The response body is not read.
     */
    method RemoteUpdateFulfilled(id: string) returns (raised: bool)
      modifies this`pods
      ensures raised <==> id !in old(pods)
      ensures raised ==> pods == old(pods)
      ensures !raised ==> pods == old(pods)[id := old(pods)[id].(remoteHash := Some(HashPod(old(pods)[id])), status := Some(Synced))]
      ensures !raised ==> ComputePodStatus(pods[id]) == pods[id]
    {
      if id !in pods { return true; }
      var p := pods[id];
      PutPod(id, p.(remoteHash := Some(HashPod(p)), status := Some(Synced)));
      return false;
    }

    /** `remoteUpdatePod` rejected: the handler throws; the pod stays as it is, `syncing` included. */
    method RemoteUpdateRejected() returns (raised: bool)
      ensures raised
    {
      return true;
    }

    /** `WS_RESULT`: the result becomes the delivered text and count. */
    method WsResult(podId: string, result: string, count: int) returns (raised: bool)
      modifies this`pods
      ensures raised <==> podId !in old(pods)
      ensures raised ==> pods == old(pods)
      ensures !raised ==> pods == old(pods)[podId := old(pods)[podId].(result := ResultRecord(result, count))]
    {
      if podId !in pods { return true; }
      PutPod(podId, pods[podId].(result := ResultRecord(result, count)));
      return false;
    }

    /** `WS_STDOUT`: the output is replaced, not appended to. */
    method WsStdout(podId: string, stdout: string) returns (raised: bool)
      modifies this`pods
      ensures raised <==> podId !in old(pods)
      ensures raised ==> pods == old(pods)
      ensures !raised ==> pods == old(pods)[podId := old(pods)[podId].(stdout := Str(stdout))]
    {
      if podId !in pods { return true; }
      PutPod(podId, pods[podId].(stdout := Str(stdout)));
      return false;
    }

    /** `WS_SIMPLE_ERROR`. */
    method WsSimpleError(podId: string, msg: string) returns (raised: bool)
      modifies this`pods
      ensures raised <==> podId !in old(pods)
      ensures raised ==> pods == old(pods)
      ensures !raised ==> pods == old(pods)[podId := old(pods)[podId].(error := SimpleError(msg))]
    {
      if podId !in pods { return true; }
      PutPod(podId, pods[podId].(error := SimpleError(msg)));
      return false;
    }

    /** `WS_ERROR`. */
    method WsError(podId: string, ename: string, evalue: string, stacktrace: string) returns (raised: bool)
      modifies this`pods
      ensures raised <==> podId !in old(pods)
      ensures raised ==> pods == old(pods)
      ensures !raised ==> pods == old(pods)[podId := old(pods)[podId].(error := FullError(ename, evalue, stacktrace))]
    {
      if podId !in pods { return true; }
      PutPod(podId, pods[podId].(error := FullError(ename, evalue, stacktrace)));
      return false;
    }

    /** `loadPodQueue` fulfilled: an error report throws; otherwise the server list is normalised and the repo is loaded. */
    method LoadFulfilled(response: LoadResponse) returns (raised: bool)
      requires response.LoadData? ==> Loadable(response.serverPods)
      modifies this`pods, this`repoLoaded
      ensures raised <==> response.LoadErrors?
      ensures raised ==> pods == old(pods) && repoLoaded == old(repoLoaded)
      ensures !raised ==> repoLoaded
      ensures !raised ==> var input := response.serverPods;
        && pods.Keys == ServerIds(input) + {Root}
        && pods[Root] == RootPod(ParentlessIds(input))
        && forall i | 0 <= i < |input| && LastOccurrence(input, i) ::
             ChildrenPresent(ById(input), input[i]) && pods[input[i].id] == NormalizePod(ById(input), input[i])
      ensures !raised && ServerTree(response.serverPods) ==> WellFormed(pods)
    {
      if response.LoadErrors? { return true; }
      ByIdKeys(response.serverPods);
      pods := NormalizePods(response.serverPods);
      repoLoaded := true;
      return false;
    }

    /** `loadPodQueue` rejected: the handler throws and the repo stays unloaded or as it was. */
    method LoadRejected() returns (raised: bool)
      ensures raised
    {
      return true;
    }

    // -------------------------------------------------------------------------
    // Structural edits
    // -------------------------------------------------------------------------

    /** The sibling loop: visit `ids` in order, shifting each visited pod whose index is at least `from` by `delta`. */
    method ShiftSiblings(ids: seq<string>, from: int, delta: int)
      requires forall y | y in ids :: y in pods
      modifies this`pods
      ensures pods == ShiftIndices(old(pods), ids, from, delta)
    {
      var start := pods;
      var m := start;
      var i := 0;
      while i < |ids|
        invariant 0 <= i <= |ids|
        invariant m == ShiftIndices(start, ids[..i], from, delta)
      {
        ShiftIndicesSnoc(start, ids, i, from, delta);
        var c := ids[i];
        if m[c].index >= from {
          m := m[c := m[c].(index := m[c].index + delta)];
        }
        i := i + 1;
      }
      assert ids[..i] == ids;
      pods := m;
    }

    /** The `addPod` reducer, for an id already assigned. */
    method AddPod(parent: Option<string>, index: int, podType: string, id: string) returns (raised: bool)
      modifies this`pods
      ensures raised <==> AddPodThrows(old(pods), ParentOrRoot(parent))
      ensures raised ==> pods == old(pods)
      ensures !raised ==> pods == AddPodSpec(old(pods), ParentOrRoot(parent), index, podType, id)
    {
      var p := ParentOrRoot(parent);
      if AddPodThrows(pods, p) { return true; }
      InsertPod(p, index, podType, id);
      return false;
    }

    /** The body of `addPod` once the parent is known: shift the siblings, store the pod, push it and sort. */
    method InsertPod(p: string, index: int, podType: string, id: string)
      requires !AddPodThrows(pods, p)
      modifies this`pods
      ensures pods == AddPodSpec(old(pods), p, index, podType, id)
    {
      ghost var before := pods;
      ShiftSiblings(pods[p].children, index, 1);
      ShiftIndicesKeepsFields(before, before[p].children, index, 1);
      var withPod := pods[id := NewPod(id, podType, index, p)];
      var pushed := withPod[p].children + [id];
      // sorting the pushed list reads only indices, which pushing does not change
      pods := withPod[p := withPod[p].(children := SortByKey(IndexKeys(withPod), pushed))];
    }

    /** The `deletePod` reducer, for a prepared `toDelete` list. */
    method DeletePod(id: string, toDelete: seq<string>) returns (raised: bool)
      modifies this`pods
      ensures raised <==> DeletePodThrows(old(pods), id)
      ensures raised ==> pods == old(pods)
      ensures !raised ==> pods == DeletePodSpec(old(pods), id, toDelete)
    {
      if DeletePodThrows(pods, id) { return true; }
      var parent := pods[id].parent.value;
      var siblings := pods[parent].children;
      var pos := IndexOf(siblings, id);
      ShiftSiblings(siblings, pos, -1);
      pods := pods[parent := pods[parent].(children := SpliceOne(siblings, pos))];
      ghost var spliced := pods;
      var i := 0;
      while i < |toDelete|
        invariant 0 <= i <= |toDelete|
        invariant pods == spliced - Members(toDelete[..i])
      {
        assert Members(toDelete[..i + 1]) == Members(toDelete[..i]) + {toDelete[i]} by {
          assert toDelete[..i + 1] == toDelete[..i] + [toDelete[i]];
        }
        pods := pods - {toDelete[i]};
        i := i + 1;
      }
      assert toDelete[..i] == toDelete;
      return false;
    }

    // -------------------------------------------------------------------------
    // The structural sync queue
    // -------------------------------------------------------------------------

    /** `addPodQueue`: append the action. */
    method AddPodQueue(a: Action)
      requires Valid() && IsPodQueueAction(a)
      modifies this`queue, this`enqueued
      ensures queue == old(queue) + [a] && enqueued == old(enqueued) + [a]
      ensures Valid()
    {
      queue := queue + [a];
      enqueued := enqueued + [a];
    }

    /** `loopPodQueue` dispatched for the head: its pending handler marks the queue busy and the request goes out. */
    method LoopPending()
      requires Valid() && |queue| > 0 && !queueProcessing
      modifies this`queueProcessing, this`requests
      ensures queueProcessing && requests == old(requests) + [queue[0]]
      ensures Valid()
    {
      queueProcessing := true;
      requests := requests + [queue[0]];
    }

    /**
     * `loopPodQueue` fulfilled for the head in flight. A response with
     * errors throws and leaves everything in place; otherwise the head is
     * acknowledged and removed and the queue is idle. No next drain starts.
     */
    method LoopFulfilled(hasErrors: bool) returns (raised: bool)
      requires Valid() && queueProcessing
      modifies this`queue, this`queueProcessing, this`acked
      ensures raised <==> hasErrors
      ensures raised ==> queue == old(queue) && queueProcessing
      ensures !raised ==> queue == old(queue)[1..] && !queueProcessing && acked == old(acked) + [old(queue)[0]]
      ensures Valid()
    {
      if hasErrors { return true; }
      acked := acked + [queue[0]];
      queue := queue[1..];
      queueProcessing := false;
      return false;
    }

    /**
     * `loopPodQueue` rejected: the handler clears the busy flag and then
     * throws, so the cleared flag is discarded with the rest of its edits.
     */
    method LoopRejected() returns (raised: bool)
      requires Valid()
      ensures raised
      ensures Valid()
    {
      return true;
    }

    /** The middleware's tail: queue a structural action and start a drain of the head if none is in flight. */
    method Schedule(a: Action)
      requires Valid()
      modifies this`queue, this`enqueued, this`queueProcessing, this`requests
      ensures IsPodQueueAction(a) ==> queue == old(queue) + [a] && enqueued == old(enqueued) + [a]
      ensures !IsPodQueueAction(a) ==> queue == old(queue) && enqueued == old(enqueued)
      ensures IsPodQueueAction(a) && !old(queueProcessing) ==> queueProcessing && requests == old(requests) + [queue[0]]
      ensures !(IsPodQueueAction(a) && !old(queueProcessing)) ==>
        queueProcessing == old(queueProcessing) && requests == old(requests)
      ensures Valid()
    {
      if IsPodQueueAction(a) {
        AddPodQueue(a);
        if |queue| > 0 && !queueProcessing {
          LoopPending();
        }
      }
    }

    /**
     * Dispatching `addPod`: the middleware assigns the id "CP" followed by
     * ten generated characters, the reducer runs, and if it did not throw
     * the action is queued.
     */
    method DispatchAddPod(parent: Option<string>, index: int, podType: string, suffix: string) returns (raised: bool)
      requires Valid() && |suffix| == 10 && "CP" + suffix !in pods
      modifies this`pods, this`queue, this`enqueued, this`queueProcessing, this`requests
      ensures var id := "CP" + suffix; var p := ParentOrRoot(parent);
        && (raised <==> AddPodThrows(old(pods), p))
        && (raised ==> pods == old(pods) && queue == old(queue) && requests == old(requests)
                       && queueProcessing == old(queueProcessing))
        && (!raised ==> pods == AddPodSpec(old(pods), p, index, podType, id)
                        && queue == old(queue) + [AddPodAction(id, parent, index, podType)])
      ensures !raised && !old(queueProcessing) ==> queueProcessing && requests == old(requests) + [queue[0]]
      ensures !raised && old(queueProcessing) ==> queueProcessing && requests == old(requests)
      ensures WellFormed(old(pods)) ==> WellFormed(pods)
      ensures Valid()
    {
      var id := "CP" + suffix;
      ghost var before := pods;
      raised := AddPod(parent, index, podType, id);
      if !raised {
        AddPodKeepsWellFormed(before, ParentOrRoot(parent), index, podType, id);
        Schedule(AddPodAction(id, parent, index, podType));
      }
    }

    /**
     * Dispatching `deletePod`: the middleware collects the subtree of `id`
     * (throwing where the collection cannot complete), the reducer runs,
     * and if it did not throw the action is queued.
     */
    method DispatchDeletePod(id: string) returns (raised: bool)
      requires Valid()
      modifies this`pods, this`queue, this`enqueued, this`queueProcessing, this`requests
      ensures var sub := Subtree(old(pods), id);
        && (raised <==> sub.None? || DeletePodThrows(old(pods), id))
        && (raised ==> pods == old(pods) && queue == old(queue) && requests == old(requests)
                       && queueProcessing == old(queueProcessing))
        && (!raised ==> pods == DeletePodSpec(old(pods), id, sub.value)
                        && queue == old(queue) + [DeletePodAction(id, sub.value)])
      ensures !raised && !old(queueProcessing) ==> queueProcessing && requests == old(requests) + [queue[0]]
      ensures !raised && old(queueProcessing) ==> queueProcessing && requests == old(requests)
      ensures WellFormed(old(pods)) ==> WellFormed(pods)
      ensures Valid()
    {
      var sub := Subtree(pods, id);
      if sub.None? { return true; }
      ghost var before := pods;
      raised := DeletePod(id, sub.value);
      if !raised {
        DeletePodKeepsWellFormed(before, id);
        Schedule(DeletePodAction(id, sub.value));
      }
    }
  }

  // ---------------------------------------------------------------------------
  // Scenarios
  // ---------------------------------------------------------------------------

  /** Before the repository is loaded the pod map is empty, so every structural edit throws and nothing is queued. */
  method EmptyStoreEditsThrow(suffix: string, id: string) returns (addRaised: bool, deleteRaised: bool, queued: seq<Action>)
    requires |suffix| == 10
    ensures addRaised && deleteRaised && queued == []
  {
    var s := new Store("session");
    addRaised := s.DispatchAddPod(None, 0, "CODE", suffix);
    deleteRaised := s.DispatchDeletePod(id);
    queued := s.queue;
  }

  /**
   * Two structural edits in quick succession: the first is sent at once,
   * the second waits; once the first is acknowledged the queue is idle with
   * the second still waiting, because only a later enqueue starts a drain.
   */
  method QueueWaitsForNextEnqueue(a: Action, b: Action) returns (waiting: seq<Action>, busy: bool, sent: seq<Action>)
    requires IsPodQueueAction(a) && IsPodQueueAction(b)
    ensures waiting == [b] && !busy && sent == [a]
  {
    var s := new Store("session");
    s.Schedule(a);
    s.Schedule(b);
    assert s.queue == [a, b] && s.requests == [a];
    var raised := s.LoopFulfilled(false);
    waiting, busy, sent := s.queue, s.queueProcessing, s.requests;
  }

  /**
   * An edit made while the pod's update is in flight: the acknowledgment
   * records the fingerprint of the edited pod, not of the one that was
   * sent, and the pod is marked synced.
   */
  method EditDuringSyncIsMarkedSynced(id: string, before: Value, after: Value)
    returns (sentHash: Fingerprint, ackHash: Fingerprint, status: Option<Status>)
    requires id != Root && before != after
    ensures sentHash != ackHash && status == Some(Synced)
    ensures ackHash.content == after && sentHash.content == before
  {
    var s := new Store("session");
    s.pods := map[Root := RootPod([id]), id := NewPod(id, "CODE", 0, Root).(content := before)];
    var r := s.RemoteUpdatePending(id);
    sentHash := HashPod(s.pods[id]);
    r := s.SetPodContent(id, after);
    r := s.RemoteUpdateFulfilled(id);
    ackHash := s.pods[id].remoteHash.value;
    status := s.pods[id].status;
  }
}
