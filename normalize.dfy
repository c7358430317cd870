/**
 * Loading a repository: the flat pod list the server returns becomes the
 * store's pod map, with a synthetic root that lists the parentless pods.
 */
module Normalize {
  import opened Wrappers
  import opened PodModel
  import opened PodTree

  /**
   * A pod as the server sends it: `parent` and `children` are references
   * by id, `content` and `result` are still serialised, and there is no
   * status or acknowledged fingerprint yet.
   */
  datatype ServerPod = ServerPod(
    id: string,
    podType: string,
    lang: string,
    content: Value,
    result: Value,
    stdout: Value,
    index: int,
    parent: Option<string>,
    children: seq<string>)

  /** The server pods by id; when an id occurs more than once, its last occurrence wins. */
  function ById(input: seq<ServerPod>): map<string, ServerPod>
    decreases |input|
  {
    if input == [] then map[]
    else
      var n := |input| - 1;
      ById(input[..n])[input[n].id := input[n]]
  }

  /** No later pod of the input carries the id of the pod at `i`. */
  ghost predicate LastOccurrence(input: seq<ServerPod>, i: int)
    requires 0 <= i < |input|
  {
    forall j | i < j < |input| :: input[j].id != input[i].id
  }

  /** Exactly the input ids are indexed. */
  lemma {:induction false} ByIdKeys(input: seq<ServerPod>)
    ensures ById(input).Keys == ServerIds(input)
    decreases |input|
  {
    if input != [] {
      var n := |input| - 1;
      ByIdKeys(input[..n]);
      assert input == input[..n] + [input[n]];
      assert ServerIds(input) == ServerIds(input[..n]) + {input[n].id};
    }
  }

  /** An indexed id maps to the last pod of the input that carries it. */
  lemma {:induction false} ByIdSource(input: seq<ServerPod>, k: string) returns (i: int)
    requires k in ById(input)
    ensures 0 <= i < |input| && input[i] == ById(input)[k] && input[i].id == k
    ensures LastOccurrence(input, i)
    decreases |input|
  {
    var n := |input| - 1;
    if k == input[n].id {
      i := n;
    } else {
      i := ByIdSource(input[..n], k);
      assert input[..n][i] == input[i];
      forall j | i < j < |input| ensures input[j].id != k {
        if j < n { assert input[..n][j] == input[j]; }
      }
    }
  }

  /** The pod at the last occurrence of an id is the one indexed under it. */
  lemma LastOccurrenceIndexed(input: seq<ServerPod>, i: int)
    requires 0 <= i < |input| && LastOccurrence(input, i)
    ensures input[i].id in ById(input) && ById(input)[input[i].id] == input[i]
  {
    ByIdKeys(input);
    var j := ByIdSource(input, input[i].id);
    assert j == i;
  }

  /** The ids of the parentless server pods, in input order. */
  function ParentlessIds(input: seq<ServerPod>): (r: seq<string>)
    ensures forall x :: x in r <==> exists i | 0 <= i < |input| :: input[i].parent.None? && input[i].id == x
    decreases |input|
  {
    if input == [] then []
    else
      var n := |input| - 1;
      assert forall i | 0 <= i < n :: input[..n][i] == input[i];
      assert input == input[..n] + [input[n]];
      ParentlessIds(input[..n]) + (if input[n].parent.None? then [input[n].id] else [])
  }

  /** The sort key for child lists: each server pod's index. */
  function ServerIndexKeys(byId: map<string, ServerPod>): (key: map<string, int>)
    ensures key.Keys == byId.Keys
    ensures forall k | k in byId :: key[k] == byId[k].index
  {
    map k | k in byId :: byId[k].index
  }

  /** The children of every server pod are present in `byId`. */
  predicate ChildrenPresent(byId: map<string, ServerPod>, p: ServerPod) {
    forall c | c in p.children :: c in byId
  }

  /**
   * One pod as the load leaves it: a missing parent becomes the root, the
   * children are sorted by their index, a rich-text or code pod's content
   * and a non-empty result are parsed, and the pod is synced with its own
   * fingerprint acknowledged.
   */
  function NormalizePod(byId: map<string, ServerPod>, p: ServerPod): Pod
    requires ChildrenPresent(byId, p)
  {
    var content := if p.podType == "WYSIWYG" || p.podType == "CODE" then Parse(p.content) else p.content;
    var result := if Truthy(p.result) then Parse(p.result) else p.result;
    var parent := if p.parent.None? then Root else p.parent.value;
    var children := SortByKey(ServerIndexKeys(byId), p.children);
    var q := Pod(p.id, p.podType, p.lang, content, result, p.stdout, NoError, p.index,
                 Some(parent), children, Some(Synced), None);
    q.(remoteHash := Some(HashPod(q)))
  }

  /**
   * What loading makes of one pod: every field is carried over, the parent
   * defaults to the root, content and result are parsed where the source
   * parses them, the child list is a permutation of the references sorted by
   * index, and the pod is synced, so recomputing its status changes nothing.
   */
  lemma NormalizePodFacts(byId: map<string, ServerPod>, p: ServerPod)
    requires ChildrenPresent(byId, p)
    ensures var q := NormalizePod(byId, p);
      && q.id == p.id && q.podType == p.podType && q.lang == p.lang && q.index == p.index
      && q.stdout == p.stdout && q.error == NoError
      && q.parent == Some(if p.parent.None? then Root else p.parent.value)
      && q.content == (if p.podType == "WYSIWYG" || p.podType == "CODE" then Parse(p.content) else p.content)
      && q.result == (if Truthy(p.result) then Parse(p.result) else p.result)
      && multiset(q.children) == multiset(p.children)
      && (forall c | c in q.children :: c in p.children)
      && SortedBy(ServerIndexKeys(byId), q.children)
      && q.status == Some(Synced) && q.remoteHash == Some(HashPod(q))
      && ComputePodStatus(q) == q
  {
  }

  /** The ids of the server pods, as a set. */
  function ServerIds(input: seq<ServerPod>): (ids: set<string>)
    ensures forall x :: x in ids <==> exists i | 0 <= i < |input| :: input[i].id == x
  {
    set i | 0 <= i < |input| :: input[i].id
  }

  /** The last-wins index grows one pod at a time. */
  lemma ByIdSnoc(input: seq<ServerPod>, j: int)
    requires 0 <= j < |input|
    ensures ById(input[..j + 1]) == ById(input[..j])[input[j].id := input[j]]
    ensures ParentlessIds(input[..j + 1])
      == ParentlessIds(input[..j]) + (if input[j].parent.None? then [input[j].id] else [])
  {
    assert input[..j + 1][..j] == input[..j];
  }

  /**
   * `normalize`: index the pods by id, then visit them in order, moving the
   * parentless ones under the root and normalising each. The source's
   * callers must send a list in which every child reference names a pod of
   * the list and no pod is the root itself.
   */
  method NormalizePods(input: seq<ServerPod>) returns (res: Pods)
    requires forall i | 0 <= i < |input| :: input[i].id != Root
    requires forall i, c | 0 <= i < |input| && c in input[i].children :: c in ServerIds(input)
    ensures res.Keys == ServerIds(input) + {Root}
    ensures ById(input).Keys == ServerIds(input)
    ensures res[Root] == RootPod(ParentlessIds(input))
    ensures forall k | k in ById(input) :: ChildrenPresent(ById(input), ById(input)[k])
    ensures forall k | k in ById(input) :: k in res && res[k] == NormalizePod(ById(input), ById(input)[k])
    ensures forall i | 0 <= i < |input| && LastOccurrence(input, i) ::
      res[input[i].id] == NormalizePod(ById(input), input[i])
    ensures ServerTree(input) ==> WellFormed(res)
  {
    var byId: map<string, ServerPod> := map[];
    var i := 0;
    while i < |input|
      invariant 0 <= i <= |input|
      invariant byId == ById(input[..i])
    {
      ByIdSnoc(input, i);
      byId := byId[input[i].id := input[i]];
      i := i + 1;
    }
    assert input[..i] == input;
    ByIdKeys(input);
    assert forall i | 0 <= i < |input| :: ChildrenPresent(byId, input[i]);
    PrefixChildrenPresent(input, |input|, byId);
    res := NormalizeEach(input, byId);
    forall i | 0 <= i < |input| && LastOccurrence(input, i)
      ensures res[input[i].id] == NormalizePod(ById(input), input[i])
    {
      LastOccurrenceIndexed(input, i);
    }
    assert LoadedFrom(input, res);
    LoadedWellFormed(input, res);
  }

  /** Every pod of `m` normalised against `byId`. */
  function NormalizedMap(byId: map<string, ServerPod>, m: map<string, ServerPod>): (r: Pods)
    requires forall k | k in m :: ChildrenPresent(byId, m[k])
    ensures r.Keys == m.Keys
    ensures forall k | k in m :: r[k] == NormalizePod(byId, m[k])
  {
    map k | k in m :: NormalizePod(byId, m[k])
  }

  lemma NormalizedMapUpdate(byId: map<string, ServerPod>, m: map<string, ServerPod>, p: ServerPod)
    requires forall k | k in m :: ChildrenPresent(byId, m[k])
    requires ChildrenPresent(byId, p)
    ensures NormalizedMap(byId, m[p.id := p]) == NormalizedMap(byId, m)[p.id := NormalizePod(byId, p)]
  {
  }

  /** Every child reference of every pod of `m` is indexed in `byId`. */
  ghost predicate AllChildrenPresent(byId: map<string, ServerPod>, m: map<string, ServerPod>) {
    forall k | k in m :: ChildrenPresent(byId, m[k])
  }

  /** One step of the second pass: the invariants of the loop carry over to the next pod. */
  lemma NormalizeStep(input: seq<ServerPod>, byId: map<string, ServerPod>, j: int, pods: Pods)
    requires 0 <= j < |input|
    requires forall i | 0 <= i < |input| :: ChildrenPresent(byId, input[i])
    requires AllChildrenPresent(byId, ById(input[..j]))
    requires pods == NormalizedMap(byId, ById(input[..j]))
    ensures ChildrenPresent(byId, input[j])
    ensures AllChildrenPresent(byId, ById(input[..j + 1]))
    ensures pods[input[j].id := NormalizePod(byId, input[j])] == NormalizedMap(byId, ById(input[..j + 1]))
    ensures ParentlessIds(input[..j + 1])
      == ParentlessIds(input[..j]) + (if input[j].parent.None? then [input[j].id] else [])
  {
    ByIdSnoc(input, j);
    PrefixChildrenPresent(input, j + 1, byId);
    NormalizedMapUpdate(byId, ById(input[..j]), input[j]);
  }

  /** The pods of the last-wins index of a prefix of the input come from the input. */
  lemma PrefixChildrenPresent(input: seq<ServerPod>, j: int, byId: map<string, ServerPod>)
    requires 0 <= j <= |input|
    requires forall i | 0 <= i < |input| :: ChildrenPresent(byId, input[i])
    ensures forall k | k in ById(input[..j]) :: ChildrenPresent(byId, ById(input[..j])[k])
  {
    forall k | k in ById(input[..j]) ensures ChildrenPresent(byId, ById(input[..j])[k]) {
      var i := ByIdSource(input[..j], k);
      assert input[..j][i] == input[i];
    }
  }

  /** The second pass of `normalize`, given the index of the first. */
  method NormalizeEach(input: seq<ServerPod>, byId: map<string, ServerPod>) returns (res: Pods)
    requires forall i | 0 <= i < |input| :: input[i].id != Root
    requires byId == ById(input)
    requires forall i | 0 <= i < |input| :: ChildrenPresent(byId, input[i])
    requires forall k | k in byId :: ChildrenPresent(byId, byId[k])
    ensures res.Keys == byId.Keys + {Root}
    ensures res[Root] == RootPod(ParentlessIds(input))
    ensures forall k | k in byId :: res[k] == NormalizePod(byId, byId[k])
  {
    ByIdKeys(input);
    assert Root !in byId;
    var rootChildren, pods := NormalizeVisit(input, byId);
    assert input[..|input|] == input;
    res := pods[Root := RootPod(rootChildren)];
  }

  /** The visiting loop of the second pass: the parentless ids in order and every pod normalised. */
  method NormalizeVisit(input: seq<ServerPod>, byId: map<string, ServerPod>) returns (rootChildren: seq<string>, pods: Pods)
    requires forall i | 0 <= i < |input| :: ChildrenPresent(byId, input[i])
    ensures rootChildren == ParentlessIds(input)
    ensures AllChildrenPresent(byId, ById(input))
    ensures pods == NormalizedMap(byId, ById(input))
  {
    rootChildren := [];
    pods := map[];
    var j := 0;
    while j < |input|
      invariant 0 <= j <= |input|
      invariant rootChildren == ParentlessIds(input[..j])
      invariant AllChildrenPresent(byId, ById(input[..j]))
      invariant pods == NormalizedMap(byId, ById(input[..j]))
    {
      NormalizeStep(input, byId, j, pods);
      var p := input[j];
      if p.parent.None? {
        rootChildren := rootChildren + [p.id];
      }
      pods := pods[p.id := NormalizePod(byId, p)];
      j := j + 1;
    }
    assert input[..j] == input;
  }

  // ---------------------------------------------------------------------------
  // The loaded tree
  // ---------------------------------------------------------------------------

  /** No two server pods carry the same id. */
  ghost predicate DistinctIds(input: seq<ServerPod>) {
    forall i, j | 0 <= i < j < |input| :: input[i].id != input[j].id
  }

  /** The parentless server pods come in ascending index. */
  ghost predicate TopLevelOrdered(input: seq<ServerPod>) {
    forall i, j | 0 <= i < j < |input| && input[i].parent.None? && input[j].parent.None? ::
      input[i].index <= input[j].index
  }

  /** A pod's parent is listed and lists it among its children. */
  ghost predicate ParentsList(byId: map<string, ServerPod>) {
    forall k | k in byId && byId[k].parent.Some? ::
      byId[k].parent.value in byId && k in byId[byId[k].parent.value].children
  }

  /** Every child is listed and names the listing pod as its parent. */
  ghost predicate ChildrenNameParent(byId: map<string, ServerPod>) {
    forall k, c | k in byId && c in byId[k].children :: c in byId && byId[c].parent == Some(k)
  }

  ghost predicate ChildrenDistinct(byId: map<string, ServerPod>) {
    forall k | k in byId :: NoDup(byId[k].children)
  }

  /**
   * The server's list describes a tree: ids are distinct, a pod's parent is
   * listed and lists it among its children, every child names the listing
   * pod as its parent, no child list repeats an id, and the parentless pods
   * come in ascending index.
   */
  ghost predicate ServerTree(input: seq<ServerPod>) {
    && DistinctIds(input) && TopLevelOrdered(input)
    && ParentsList(ById(input)) && ChildrenNameParent(ById(input)) && ChildrenDistinct(ById(input))
  }

  /** The pod map `res` holds `ROOT` over the parentless ids and every indexed pod normalised. */
  ghost predicate LoadedFrom(input: seq<ServerPod>, res: Pods) {
    && res.Keys == ById(input).Keys + {Root}
    && res[Root] == RootPod(ParentlessIds(input))
    && forall k | k in ById(input) ::
         ChildrenPresent(ById(input), ById(input)[k]) && res[k] == NormalizePod(ById(input), ById(input)[k])
  }

  /** With distinct ids, every server pod is the one indexed under its id. */
  lemma DistinctIndexed(input: seq<ServerPod>, i: int)
    requires DistinctIds(input) && 0 <= i < |input|
    ensures input[i].id in ById(input) && ById(input)[input[i].id] == input[i]
  {
    LastOccurrenceIndexed(input, i);
  }

  /** A prefix of a list with distinct ids has distinct ids. */
  lemma DistinctPrefix(input: seq<ServerPod>, n: int)
    requires DistinctIds(input) && 0 <= n <= |input|
    ensures DistinctIds(input[..n])
  {
    assert forall i | 0 <= i < n :: input[..n][i] == input[i];
  }

  /** With distinct ids, the root's children repeat no id. */
  lemma {:induction false} ParentlessNoDup(input: seq<ServerPod>)
    requires DistinctIds(input)
    ensures NoDup(ParentlessIds(input))
    decreases |input|
  {
    if input != [] {
      var n := |input| - 1;
      DistinctPrefix(input, n);
      ParentlessNoDup(input[..n]);
      var s := ParentlessIds(input[..n]);
      if input[n].parent.None? {
        var x := input[n].id;
        forall y | y in s ensures y != x {
          var i :| 0 <= i < n && input[..n][i].parent.None? && input[..n][i].id == y;
          assert input[..n][i] == input[i];
        }
        var t := s + [x];
        forall a, b | 0 <= a < b < |t| ensures t[a] != t[b] {
          if b < |s| { assert t[a] == s[a] && t[b] == s[b]; } else { assert t[a] == s[a] && s[a] in s; }
        }
      }
    }
  }

  /** When the parentless pods come in ascending index, so do the root's children. */
  lemma {:induction false} ParentlessSorted(input: seq<ServerPod>, key: map<string, int>)
    requires forall i | 0 <= i < |input| :: input[i].id in key && key[input[i].id] == input[i].index
    requires forall i, j | 0 <= i < j < |input| && input[i].parent.None? && input[j].parent.None? ::
      input[i].index <= input[j].index
    ensures forall y | y in ParentlessIds(input) :: y in key
    ensures SortedBy(key, ParentlessIds(input))
    decreases |input|
  {
    if input != [] {
      var n := |input| - 1;
      assert forall i | 0 <= i < n :: input[..n][i] == input[i];
      ParentlessSorted(input[..n], key);
      var s := ParentlessIds(input[..n]);
      if input[n].parent.None? {
        var x := input[n].id;
        forall y | y in s ensures key[y] <= key[x] {
          var i :| 0 <= i < n && input[..n][i].parent.None? && input[..n][i].id == y;
          assert input[..n][i] == input[i];
        }
        var t := s + [x];
        forall a, b | 0 <= a < b < |t| ensures key[t[a]] <= key[t[b]] {
          if b < |s| { assert t[a] == s[a] && t[b] == s[b]; } else { assert t[a] == s[a] && s[a] in s; }
        }
      }
    }
  }

  /** What each loaded pod keeps of its server record: index, parent, and its references permuted and sorted. */
  ghost predicate LoadedShape(input: seq<ServerPod>, res: Pods) {
    var byId := ById(input);
    && Root !in byId && res.Keys == byId.Keys + {Root}
    && res[Root].parent == None && res[Root].children == ParentlessIds(input)
    && forall k | k in byId ::
      && res[k].index == byId[k].index
      && res[k].parent == Some(if byId[k].parent.None? then Root else byId[k].parent.value)
      && multiset(res[k].children) == multiset(byId[k].children)
      && (forall c | c in res[k].children :: c in byId[k].children && c in byId)
      && SortedBy(ServerIndexKeys(byId), res[k].children)
  }

  lemma LoadedPodFacts(input: seq<ServerPod>, res: Pods)
    requires forall i | 0 <= i < |input| :: input[i].id != Root
    requires LoadedFrom(input, res)
    ensures LoadedShape(input, res)
  {
    ByIdKeys(input);
    var byId := ById(input);
    forall k | k in byId
      ensures && res[k].index == byId[k].index
        && res[k].parent == Some(if byId[k].parent.None? then Root else byId[k].parent.value)
        && multiset(res[k].children) == multiset(byId[k].children)
        && (forall c | c in res[k].children :: c in byId[k].children && c in byId)
        && SortedBy(ServerIndexKeys(byId), res[k].children)
    {
      NormalizePodFacts(byId, byId[k]);
    }
  }

  /** Loading a server tree links every pod but the root to a parent that lists it. */
  lemma LoadedParentLinks(input: seq<ServerPod>, res: Pods)
    requires ParentsList(ById(input)) && LoadedShape(input, res)
    ensures ParentLinks(res)
  {
    var byId := ById(input);
    forall k | k in res && k != Root
      ensures res[k].parent.Some? && res[k].parent.value in res && k in res[res[k].parent.value].children
    {
      if byId[k].parent.None? {
        var i := ByIdSource(input, k);
        assert input[i].parent.None? && input[i].id == k;
      } else {
        var q := byId[k].parent.value;
        assert k in multiset(byId[q].children);
      }
    }
  }

  /** The root's children are loaded pods with the root as their parent. */
  lemma LoadedRootChildren(input: seq<ServerPod>, res: Pods)
    requires DistinctIds(input) && LoadedShape(input, res)
    ensures forall c | c in res[Root].children :: c in res && res[c].parent == Some(Root)
  {
    forall c | c in res[Root].children ensures c in res && res[c].parent == Some(Root) {
      var i :| 0 <= i < |input| && input[i].parent.None? && input[i].id == c;
      DistinctIndexed(input, i);
    }
  }

  /** Loading a server tree makes every listed child name the listing pod as its parent. */
  lemma LoadedChildLinks(input: seq<ServerPod>, res: Pods)
    requires DistinctIds(input) && ChildrenNameParent(ById(input)) && LoadedShape(input, res)
    ensures ChildLinks(res)
  {
    LoadedRootChildren(input, res);
    var byId := ById(input);
    forall k, c | k in byId && c in res[k].children ensures c in res && res[c].parent == Some(k) {
      assert c in byId[k].children;
    }
  }

  /** The root's child list repeats no id and is sorted by index. */
  lemma LoadedRootList(input: seq<ServerPod>, res: Pods)
    requires DistinctIds(input) && TopLevelOrdered(input) && LoadedShape(input, res)
    ensures forall c | c in res[Root].children :: c in IndexKeys(res)
    ensures NoDup(res[Root].children) && SortedBy(IndexKeys(res), res[Root].children)
  {
    var key := IndexKeys(res);
    forall i | 0 <= i < |input| ensures input[i].id in key && key[input[i].id] == input[i].index {
      DistinctIndexed(input, i);
    }
    ParentlessSorted(input, key);
    ParentlessNoDup(input);
  }

  /** Every loaded pod's child list repeats no id and is sorted by index. */
  lemma LoadedPodLists(input: seq<ServerPod>, res: Pods)
    requires ChildrenDistinct(ById(input)) && LoadedShape(input, res)
    ensures forall k, c | k in ById(input) && c in res[k].children :: c in IndexKeys(res)
    ensures forall k | k in ById(input) :: NoDup(res[k].children) && SortedBy(IndexKeys(res), res[k].children)
  {
    var byId := ById(input);
    var key := IndexKeys(res);
    forall k | k in byId ensures NoDup(res[k].children) && SortedBy(key, res[k].children) {
      NoDupCounts(byId[k].children);
      CountsNoDup(res[k].children);
      SortedByAgree(ServerIndexKeys(byId), key, res[k].children);
    }
  }

  /** Loading a server list that describes a tree establishes the store's tree invariant. */
  lemma LoadedWellFormed(input: seq<ServerPod>, res: Pods)
    requires forall i | 0 <= i < |input| :: input[i].id != Root
    requires LoadedFrom(input, res)
    ensures ServerTree(input) ==> WellFormed(res)
  {
    if ServerTree(input) {
      LoadedPodFacts(input, res);
      ShapedWellFormed(input, res);
    }
  }

  /** A pod map shaped by loading a server tree satisfies the tree invariant. */
  lemma ShapedWellFormed(input: seq<ServerPod>, res: Pods)
    requires ServerTree(input) && LoadedShape(input, res)
    ensures WellFormed(res)
  {
    LoadedParentLinks(input, res);
    LoadedChildLinks(input, res);
    LoadedRootList(input, res);
    LoadedPodLists(input, res);
    assert ChildListsDistinct(res);
    assert ChildListsSorted(res);
  }
}
