/**
 * The pod tree: a map from id to pod with ordered child lists. This module
 * holds the pure definitions the store's structural edits are specified by:
 * the stable sort of a child list by index, the sibling index shift, the
 * recursive collection of a subtree, the add and delete edits, and the
 * tree invariant they preserve.
 */
module PodTree {
  import opened Wrappers
  import opened PodModel

  type Pods = map<string, Pod>

  /** The sort key the store's comparators read: each pod's `index`. */
  function IndexKeys(pods: Pods): (key: map<string, int>)
    ensures key.Keys == pods.Keys
    ensures forall k | k in pods :: key[k] == pods[k].index
  {
    map k | k in pods :: pods[k].index
  }

  predicate NoDup(s: seq<string>) {
    forall i, j | 0 <= i < j < |s| :: s[i] != s[j]
  }

  predicate SortedBy(key: map<string, int>, ids: seq<string>)
    requires forall y | y in ids :: y in key
  {
    forall i, j | 0 <= i < j < |ids| :: key[ids[i]] <= key[ids[j]]
  }

  // ---------------------------------------------------------------------------
  // Stable sort by index (the comparator `(a, b) => pods[a].index - pods[b].index`)
  // ---------------------------------------------------------------------------

  /** Inserts `x` after every element whose key is not larger than its own. */
  function Insert(key: map<string, int>, x: string, s: seq<string>): (r: seq<string>)
    requires x in key && forall y | y in s :: y in key
    ensures multiset(r) == multiset(s) + multiset{x}
    ensures forall y | y in r :: y == x || y in s
    decreases |s|
  {
    if s == [] then [x]
    else if key[x] < key[s[0]] then [x] + s
    else
      assert s == [s[0]] + s[1..];
      [s[0]] + Insert(key, x, s[1..])
  }

  /** Inserting into a sorted list keeps it sorted. */
  lemma {:induction false} InsertSorted(key: map<string, int>, x: string, s: seq<string>)
    requires x in key && forall y | y in s :: y in key
    requires SortedBy(key, s)
    ensures SortedBy(key, Insert(key, x, s))
    decreases |s|
  {
    if s != [] {
      if key[x] < key[s[0]] {
        forall y | y in s ensures key[x] <= key[y] {
          var j :| 0 <= j < |s| && s[j] == y;
          if j > 0 { assert key[s[0]] <= key[s[j]]; }
        }
        SortedCons(key, x, s);
      } else {
        var rest := Insert(key, x, s[1..]);
        assert SortedBy(key, s[1..]) by {
          forall i, j | 0 <= i < j < |s[1..]| ensures key[s[1..][i]] <= key[s[1..][j]] {
            assert s[1..][i] == s[i + 1] && s[1..][j] == s[j + 1];
          }
        }
        InsertSorted(key, x, s[1..]);
        forall y | y in rest ensures key[s[0]] <= key[y] {
          if y != x {
            var j :| 0 <= j < |s[1..]| && s[1..][j] == y;
            assert s[j + 1] == y;
          }
        }
        SortedCons(key, s[0], rest);
      }
    }
  }

  lemma SortedCons(key: map<string, int>, a: string, t: seq<string>)
    requires a in key && forall y | y in t :: y in key
    requires SortedBy(key, t)
    requires forall y | y in t :: key[a] <= key[y]
    ensures SortedBy(key, [a] + t)
  {
    var u := [a] + t;
    forall i, j | 0 <= i < j < |u| ensures key[u[i]] <= key[u[j]] {
      assert u[j] == t[j - 1];
      if i > 0 { assert u[i] == t[i - 1]; }
    }
  }

  /** A stable insertion sort of `ids` by `key`, as the library sort the source calls. */
  function SortByKey(key: map<string, int>, ids: seq<string>): (r: seq<string>)
    requires forall y | y in ids :: y in key
    ensures multiset(r) == multiset(ids)
    ensures forall y | y in r :: y in ids
    ensures SortedBy(key, r)
    decreases |ids|
  {
    if ids == [] then []
    else
      var n := |ids| - 1;
      assert ids == ids[..n] + [ids[n]];
      var sorted := SortByKey(key, ids[..n]);
      InsertSorted(key, ids[n], sorted);
      Insert(key, ids[n], sorted)
  }

  // ---------------------------------------------------------------------------
  // Sibling index shift (`forEach(id => if (pods[id].index >= from) pods[id].index += delta)`)
  // ---------------------------------------------------------------------------

  /** The pods after visiting `ids` in order and shifting each visited pod whose index is at least `from`. */
  function ShiftIndices(pods: Pods, ids: seq<string>, from: int, delta: int): (r: Pods)
    requires forall y | y in ids :: y in pods
    ensures r.Keys == pods.Keys
    decreases |ids|
  {
    if ids == [] then pods
    else
      var n := |ids| - 1;
      var p := ShiftIndices(pods, ids[..n], from, delta);
      var c := ids[n];
      if p[c].index >= from then p[c := p[c].(index := p[c].index + delta)] else p
  }

  /** The shift changes nothing but indices. */
  lemma {:induction false} ShiftIndicesKeepsFields(pods: Pods, ids: seq<string>, from: int, delta: int)
    requires forall y | y in ids :: y in pods
    ensures var r := ShiftIndices(pods, ids, from, delta);
      forall k | k in r :: r[k] == pods[k].(index := r[k].index)
    decreases |ids|
  {
    if ids != [] {
      ShiftIndicesKeepsFields(pods, ids[..|ids| - 1], from, delta);
    }
  }

  /** The shift over one more id: the pod at position `i` is shifted if its current index is at least `from`. */
  lemma ShiftIndicesSnoc(pods: Pods, ids: seq<string>, i: int, from: int, delta: int)
    requires forall y | y in ids :: y in pods
    requires 0 <= i < |ids|
    ensures forall y | y in ids[..i] :: y in pods
    ensures forall y | y in ids[..i + 1] :: y in pods
    ensures var p := ShiftIndices(pods, ids[..i], from, delta);
      ShiftIndices(pods, ids[..i + 1], from, delta)
        == if p[ids[i]].index >= from then p[ids[i] := p[ids[i]].(index := p[ids[i]].index + delta)] else p
  {
    assert ids[..i + 1][..i] == ids[..i];
    assert ids[..i + 1][i] == ids[i];
  }

  /** Over a list without repetitions, each listed pod is shifted once if its index is at least `from`. */
  lemma {:induction false} ShiftIndicesEffect(pods: Pods, ids: seq<string>, from: int, delta: int)
    requires forall y | y in ids :: y in pods
    requires NoDup(ids)
    ensures forall k | k in pods ::
      ShiftIndices(pods, ids, from, delta)[k].index
        == if k in ids && pods[k].index >= from then pods[k].index + delta else pods[k].index
    decreases |ids|
  {
    if ids != [] {
      var n := |ids| - 1;
      assert NoDup(ids[..n]);
      ShiftIndicesEffect(pods, ids[..n], from, delta);
      forall k | k in pods
        ensures k in ids <==> k in ids[..n] || k == ids[n]
      {
        assert ids == ids[..n] + [ids[n]];
      }
      assert ids[n] !in ids[..n];
    }
  }

  // ---------------------------------------------------------------------------
  // indexOf and splice(start, 1)
  // ---------------------------------------------------------------------------

  /** `s.indexOf(x)`: the first position of `x`, or -1. */
  function IndexOf(s: seq<string>, x: string): (r: int)
    ensures -1 <= r < |s|
    ensures r == -1 <==> x !in s
    ensures r >= 0 ==> s[r] == x && x !in s[..r]
  {
    if |s| == 0 then -1
    else if s[0] == x then 0
    else
      var k := IndexOf(s[1..], x);
      assert s[1..] == s[1..][..];
      if k == -1 then -1
      else
        assert s[..k + 1] == [s[0]] + s[1..][..k];
        k + 1
  }

  /** `s.splice(start, 1)`: a negative start counts from the end, a start past the end removes nothing. */
  function SpliceOne(s: seq<string>, start: int): (r: seq<string>)
    ensures 0 <= start < |s| ==> r == s[..start] + s[start + 1..]
    ensures start == -1 && |s| > 0 ==> r == s[..|s| - 1]
    ensures start >= |s| ==> r == s
  {
    var k := if start < 0 then (if |s| + start < 0 then 0 else |s| + start)
             else (if start > |s| then |s| else start);
    if k < |s| then s[..k] + s[k + 1..] else s
  }

  // ---------------------------------------------------------------------------
  // The subtree collected for deletePod (the middleware's recursive `dfs`)
  // ---------------------------------------------------------------------------

  lemma RemovingOneShrinks(keys: set<string>, path: set<string>, id: string)
    requires id in keys && id !in path
    ensures |keys - (path + {id})| < |keys - path|
  {
    assert keys - (path + {id}) == (keys - path) - {id};
  }

  /**
   * `[id].concat(...pods[id].children.map(dfs))`: the pre-order list of the
   * subtree under `id`. `path` holds the ancestors on the current recursion
   * path. The result is `None` exactly where the source's recursion cannot
   * complete: a pod that is missing (reading its `children` throws) or a
   * child that is one of its own ancestors (the recursion never ends).
   */
  function Dfs(pods: Pods, id: string, path: set<string>): (r: Option<seq<string>>)
    decreases |pods.Keys - path|, 0, 0
  {
    if id !in pods || id in path then None
    else
      RemovingOneShrinks(pods.Keys, path, id);
      match DfsList(pods, pods[id].children, path + {id})
      case None => None
      case Some(rest) => Some([id] + rest)
  }

  /** The concatenated subtrees of the children `cs`, in order. */
  function DfsList(pods: Pods, cs: seq<string>, path: set<string>): (r: Option<seq<string>>)
    decreases |pods.Keys - path|, 1, |cs|
  {
    if cs == [] then Some([])
    else
      match Dfs(pods, cs[0], path)
      case None => None
      case Some(first) =>
        match DfsList(pods, cs[1..], path)
        case None => None
        case Some(rest) => Some(first + rest)
  }

  /** The ids `deletePod` removes: the subtree of `id`, `id` first. */
  function Subtree(pods: Pods, id: string): Option<seq<string>> {
    Dfs(pods, id, {})
  }

  /** `c` is listed among the children of some pod in `r`. */
  ghost predicate ChildOfSome(pods: Pods, r: seq<string>, c: string) {
    exists z | z in r && z in pods :: c in pods[z].children
  }

  /** Every element of `r` is a present pod off the ancestor path. */
  ghost predicate Within(pods: Pods, r: seq<string>, path: set<string>) {
    forall y | y in r :: y in pods && y !in path
  }

  /** `r` lists every child of its elements, and none of them is on the ancestor path. */
  ghost predicate Closed(pods: Pods, r: seq<string>, path: set<string>) {
    forall y, c | y in r && y in pods && c in pods[y].children :: c in r && c !in path
  }

  /** Every element of `r` outside `starts` is a child of an element of `r`. */
  ghost predicate Reached(pods: Pods, r: seq<string>, starts: seq<string>) {
    forall y | y in r && y !in starts :: ChildOfSome(pods, r, y)
  }

  /** A completed collection starts with `id` and lists only present pods off the ancestor path. */
  lemma {:induction false} DfsWithin(pods: Pods, id: string, path: set<string>)
    requires Dfs(pods, id, path).Some?
    ensures var r := Dfs(pods, id, path).value; |r| >= 1 && r[0] == id && Within(pods, r, path)
    decreases |pods.Keys - path|, 0, 0
  {
    RemovingOneShrinks(pods.Keys, path, id);
    DfsListWithin(pods, pods[id].children, path + {id});
  }

  lemma {:induction false} DfsListWithin(pods: Pods, cs: seq<string>, path: set<string>)
    requires DfsList(pods, cs, path).Some?
    ensures var r := DfsList(pods, cs, path).value; Within(pods, r, path) && forall c | c in cs :: c in r
    decreases |pods.Keys - path|, 1, |cs|
  {
    if cs != [] {
      DfsWithin(pods, cs[0], path);
      DfsListWithin(pods, cs[1..], path);
      forall c | c in cs ensures c in DfsList(pods, cs, path).value {
        if c != cs[0] { assert c in cs[1..]; }
      }
    }
  }

  /** A completed collection is closed under children, and no child of an element is `id` or an ancestor. */
  lemma {:induction false} DfsClosed(pods: Pods, id: string, path: set<string>)
    requires Dfs(pods, id, path).Some?
    ensures Closed(pods, Dfs(pods, id, path).value, path + {id})
    decreases |pods.Keys - path|, 0, 0
  {
    RemovingOneShrinks(pods.Keys, path, id);
    var cs := pods[id].children;
    DfsListClosed(pods, cs, path + {id});
    DfsListWithin(pods, cs, path + {id});
    var rest := DfsList(pods, cs, path + {id}).value;
    assert Dfs(pods, id, path).value == [id] + rest;
    ClosedCons(pods, id, rest, path + {id});
  }

  /** Prefixing a pod whose children are all listed keeps a list closed. */
  lemma ClosedCons(pods: Pods, id: string, rest: seq<string>, p: set<string>)
    requires id in pods && forall c | c in pods[id].children :: c in rest
    requires Within(pods, rest, p) && Closed(pods, rest, p)
    ensures Closed(pods, [id] + rest, p)
  {
    var r := [id] + rest;
    forall y, c | y in r && y in pods && c in pods[y].children ensures c in r && c !in p {
      if y == id {
        assert c in rest;
      } else {
        assert y in rest;
        assert c in rest;
      }
    }
  }

  lemma {:induction false} DfsListClosed(pods: Pods, cs: seq<string>, path: set<string>)
    requires DfsList(pods, cs, path).Some?
    ensures Closed(pods, DfsList(pods, cs, path).value, path)
    decreases |pods.Keys - path|, 1, |cs|
  {
    if cs != [] {
      DfsClosed(pods, cs[0], path);
      DfsListClosed(pods, cs[1..], path);
      var first := Dfs(pods, cs[0], path).value;
      var rest := DfsList(pods, cs[1..], path).value;
      var r := first + rest;
      assert DfsList(pods, cs, path).value == r;
      forall y, c | y in r && y in pods && c in pods[y].children ensures c in r && c !in path {
        if y in first { assert c in first; } else { assert y in rest; assert c in rest; }
      }
    }
  }

  /** Every element of a completed collection other than `id` is a child of another element. */
  lemma {:induction false} DfsReached(pods: Pods, id: string, path: set<string>)
    requires Dfs(pods, id, path).Some?
    ensures Reached(pods, Dfs(pods, id, path).value, [id])
    decreases |pods.Keys - path|, 0, 0
  {
    RemovingOneShrinks(pods.Keys, path, id);
    var cs := pods[id].children;
    DfsListReached(pods, cs, path + {id});
    var rest := DfsList(pods, cs, path + {id}).value;
    var r := [id] + rest;
    assert Dfs(pods, id, path).value == r;
    forall y | y in r && y !in [id] ensures ChildOfSome(pods, r, y) {
      assert y in rest;
      if y in cs {
        assert id in r && id in pods && y in pods[id].children;
      } else {
        var z :| z in rest && z in pods && y in pods[z].children;
        assert z in r;
      }
    }
  }

  lemma {:induction false} DfsListReached(pods: Pods, cs: seq<string>, path: set<string>)
    requires DfsList(pods, cs, path).Some?
    ensures Reached(pods, DfsList(pods, cs, path).value, cs)
    decreases |pods.Keys - path|, 1, |cs|
  {
    if cs != [] {
      DfsReached(pods, cs[0], path);
      DfsListReached(pods, cs[1..], path);
      var first := Dfs(pods, cs[0], path).value;
      var rest := DfsList(pods, cs[1..], path).value;
      var r := first + rest;
      assert DfsList(pods, cs, path).value == r;
      forall y | y in r && y !in cs ensures ChildOfSome(pods, r, y) {
        if y in first {
          assert y !in [cs[0]];
          var z :| z in first && z in pods && y in pods[z].children;
          assert z in r;
        } else {
          assert y in rest && y !in cs[1..];
          var z :| z in rest && z in pods && y in pods[z].children;
          assert z in r;
        }
      }
    }
  }

  // ---------------------------------------------------------------------------
  // The tree invariant
  // ---------------------------------------------------------------------------

  /** Every pod but the root names a present parent that lists it. */
  ghost predicate ParentLinks(pods: Pods) {
    forall k | k in pods && k != Root ::
      pods[k].parent.Some? && pods[k].parent.value in pods && k in pods[pods[k].parent.value].children
  }

  /** Every listed child is present and names the listing pod as its parent. */
  ghost predicate ChildLinks(pods: Pods) {
    forall k, c | k in pods && c in pods[k].children :: c in pods && pods[c].parent == Some(k)
  }

  ghost predicate ChildListsDistinct(pods: Pods) {
    forall k | k in pods :: NoDup(pods[k].children)
  }

  ghost predicate ChildListsSorted(pods: Pods)
    requires ChildLinks(pods)
  {
    forall k | k in pods :: SortedBy(IndexKeys(pods), pods[k].children)
  }

  /**
   * The tree invariant of the store: the root is present and parentless,
   * parent and child links agree, and every child list is free of
   * repetitions and sorted by index.
   */
  ghost predicate WellFormed(pods: Pods) {
    && Root in pods && pods[Root].parent == None
    && ParentLinks(pods) && ChildLinks(pods)
    && ChildListsDistinct(pods) && ChildListsSorted(pods)
  }

  lemma {:induction false} NoDupCounts(s: seq<string>)
    requires NoDup(s)
    ensures forall y :: multiset(s)[y] <= 1
  {
    if s != [] {
      assert s == [s[0]] + s[1..];
      assert NoDup(s[1..]);
      NoDupCounts(s[1..]);
      assert forall j | 0 <= j < |s[1..]| :: s[1..][j] == s[j + 1];
      assert s[0] !in s[1..];
    }
  }

  lemma CountsNoDup(s: seq<string>)
    requires forall y :: multiset(s)[y] <= 1
    ensures NoDup(s)
  {
    forall i, j | 0 <= i < j < |s| ensures s[i] != s[j] {
      assert s == s[..j] + s[j..];
      assert s[j] in s[j..];
      assert multiset(s)[s[j]] == multiset(s[..j])[s[j]] + multiset(s[j..])[s[j]];
      assert s[j] !in s[..j];
      assert s[i] in s[..j];
    }
  }

  /** A list that holds the elements of a repetition-free list plus one new element is repetition-free. */
  lemma NoDupAddFresh(s: seq<string>, t: seq<string>, x: string)
    requires NoDup(s) && x !in s && multiset(t) == multiset(s) + multiset{x}
    ensures NoDup(t)
  {
    NoDupCounts(s);
    CountsNoDup(t);
  }

  lemma SortedByAgree(key1: map<string, int>, key2: map<string, int>, s: seq<string>)
    requires forall y | y in s :: y in key1 && y in key2 && key1[y] == key2[y]
    requires SortedBy(key1, s)
    ensures SortedBy(key2, s)
  {
  }

  lemma {:induction false} ShiftIndicesOutside(pods: Pods, ids: seq<string>, from: int, delta: int, k: string)
    requires forall y | y in ids :: y in pods
    requires k in pods && k !in ids
    ensures ShiftIndices(pods, ids, from, delta)[k] == pods[k]
    decreases |ids|
  {
    if ids != [] {
      var n := |ids| - 1;
      assert ids == ids[..n] + [ids[n]];
      ShiftIndicesOutside(pods, ids[..n], from, delta, k);
    }
  }

  // ---------------------------------------------------------------------------
  // addPod
  // ---------------------------------------------------------------------------

  /** The parent the reducer uses: an absent or empty parent means the root. */
  function ParentOrRoot(parent: Option<string>): (p: string)
    ensures parent.None? ==> p == Root
    ensures parent.Some? && parent.value == "" ==> p == Root
    ensures parent.Some? && parent.value != "" ==> p == parent.value
  {
    if parent.None? || parent.value == "" then Root else parent.value
  }

  /** The addPod reducer throws when the parent or one of its children is missing. */
  predicate AddPodThrows(pods: Pods, parent: string) {
    parent !in pods || !(forall c | c in pods[parent].children :: c in pods)
  }

  /**
   * The pods after `addPod`: siblings at or after `index` move up by one,
   * the new pod is stored, appended to its parent's children and the list
   * is sorted by index.
   */
  function AddPodSpec(pods: Pods, parent: string, index: int, podType: string, id: string): (r: Pods)
    requires !AddPodThrows(pods, parent)
    ensures r.Keys == pods.Keys + {id}
    ensures forall c | c in r[parent].children :: c in r
  {
    ShiftIndicesKeepsFields(pods, pods[parent].children, index, 1);
    var shifted := ShiftIndices(pods, pods[parent].children, index, 1);
    var withPod := shifted[id := NewPod(id, podType, index, parent)];
    var siblings := withPod[parent].children + [id];
    withPod[parent := withPod[parent].(children := SortByKey(IndexKeys(withPod), siblings))]
  }

  /**
   * addPod's effect on the existing pods: exactly the parent's children
   * whose index was at least `index` move up by one; nothing else changes
   * but the parent's child list.
   */
  lemma AddPodShiftsSiblings(pods: Pods, parent: string, index: int, podType: string, id: string)
    requires !AddPodThrows(pods, parent) && id !in pods
    requires NoDup(pods[parent].children)
    ensures var r := AddPodSpec(pods, parent, index, podType, id);
      && r.Keys == pods.Keys + {id}
      && (forall k | k in pods ::
            r[k].index == if k in pods[parent].children && pods[k].index >= index then pods[k].index + 1
                          else pods[k].index)
      && (forall k | k in pods && k != parent :: r[k] == pods[k].(index := r[k].index))
      && r[parent] == pods[parent].(index := r[parent].index, children := r[parent].children)
      && (forall k | k in pods :: r[k].parent == pods[k].parent)
      && (forall k | k in pods && k != parent :: r[k].children == pods[k].children)
  {
    AddPodSpecShape(pods, parent, index, podType, id);
    ShiftIndicesKeepsFields(pods, pods[parent].children, index, 1);
    ShiftIndicesEffect(pods, pods[parent].children, index, 1);
  }

  /** AddPodSpec keeps every shifted pod but the parent and changes only the parent's child list. */
  lemma AddPodSpecShape(pods: Pods, parent: string, index: int, podType: string, id: string)
    requires !AddPodThrows(pods, parent) && id !in pods
    ensures var shifted := ShiftIndices(pods, pods[parent].children, index, 1);
      var r := AddPodSpec(pods, parent, index, podType, id);
      && r.Keys == pods.Keys + {id}
      && (forall k | k in pods && k != parent :: r[k] == shifted[k])
      && r[parent] == shifted[parent].(children := r[parent].children)
  {
    ShiftIndicesKeepsFields(pods, pods[parent].children, index, 1);
  }

  /**
   * addPod's new pod and the parent's new child list: the old list plus the
   * new id, sorted by the new indices; the new pod is a synced leaf whose
   * acknowledged fingerprint is its own.
   */
  lemma AddPodInsertsChild(pods: Pods, parent: string, index: int, podType: string, id: string)
    requires !AddPodThrows(pods, parent) && id !in pods
    ensures var r := AddPodSpec(pods, parent, index, podType, id);
      && r[id] == NewPod(id, podType, index, parent)
      && r[id].children == [] && r[id].status == Some(Synced) && r[id].remoteHash == Some(HashPod(r[id]))
      && multiset(r[parent].children) == multiset(pods[parent].children) + multiset{id}
      && SortedBy(IndexKeys(r), r[parent].children)
  {
    ShiftIndicesKeepsFields(pods, pods[parent].children, index, 1);
    var shifted := ShiftIndices(pods, pods[parent].children, index, 1);
    var withPod := shifted[id := NewPod(id, podType, index, parent)];
    var r := AddPodSpec(pods, parent, index, podType, id);
    assert IndexKeys(r) == IndexKeys(withPod);
  }

  /** The members of a list with one element added, read off its multiset. */
  lemma MembersOfAdded(s: seq<string>, t: seq<string>, x: string)
    requires multiset(t) == multiset(s) + multiset{x}
    ensures x in t
    ensures forall c | c in t :: c == x || c in s
    ensures forall c | c in s :: c in t
  {
    assert multiset(t)[x] > 0;
    forall c | c in t ensures c == x || c in s {
      assert multiset(t)[c] > 0;
    }
    forall c | c in s ensures c in t {
      assert multiset(t)[c] > 0;
    }
  }

  /** addPod, when it does not throw, keeps the tree invariant of a tree that had it. */
  lemma AddPodKeepsWellFormed(pods: Pods, parent: string, index: int, podType: string, id: string)
    requires !AddPodThrows(pods, parent) && id !in pods
    ensures WellFormed(pods) ==> WellFormed(AddPodSpec(pods, parent, index, podType, id))
  {
    if WellFormed(pods) {
      AddPodPreservesWellFormed(pods, parent, index, podType, id);
    }
  }

  /** addPod with a fresh id keeps the tree invariant. */
  lemma AddPodPreservesWellFormed(pods: Pods, parent: string, index: int, podType: string, id: string)
    requires WellFormed(pods) && parent in pods && id !in pods
    ensures !AddPodThrows(pods, parent)
    ensures WellFormed(AddPodSpec(pods, parent, index, podType, id))
  {
    AddPodParentList(pods, parent, index, podType, id);
    AddPodShiftsSiblings(pods, parent, index, podType, id);
    var r := AddPodSpec(pods, parent, index, podType, id);
    AddPodInsertsChild(pods, parent, index, podType, id);
    AddPodLinks(pods, r, parent, id);
    AddPodDistinct(pods, r, parent, id);
    assert forall k | k in pods && pods[k].parent != Some(parent) :: k !in pods[parent].children;
    AddPodSorted(pods, r, parent, id);
  }

  /** The parent's child list after addPod: the old children plus the new id, once each. */
  lemma AddPodParentList(pods: Pods, parent: string, index: int, podType: string, id: string)
    requires WellFormed(pods) && parent in pods && id !in pods
    ensures !AddPodThrows(pods, parent)
    ensures var r := AddPodSpec(pods, parent, index, podType, id);
      && NoDup(pods[parent].children) && id in r[parent].children && NoDup(r[parent].children)
      && (forall c | c in r[parent].children :: c == id || c in pods[parent].children)
      && (forall c | c in pods[parent].children :: c in r[parent].children)
  {
    var siblings := pods[parent].children;
    assert forall c | c in siblings :: c in pods && pods[c].parent == Some(parent);
    assert NoDup(siblings);
    AddPodInsertsChild(pods, parent, index, podType, id);
    var r := AddPodSpec(pods, parent, index, podType, id);
    MembersOfAdded(siblings, r[parent].children, id);
    NoDupAddFresh(siblings, r[parent].children, id);
  }

  lemma AddPodLinks(pods: Pods, r: Pods, parent: string, id: string)
    requires Root in pods && pods[Root].parent == None && ParentLinks(pods) && ChildLinks(pods)
    requires parent in pods && id !in pods && r.Keys == pods.Keys + {id}
    requires forall k | k in pods :: r[k].parent == pods[k].parent
    requires forall k | k in pods && k != parent :: r[k].children == pods[k].children
    requires r[id].parent == Some(parent) && r[id].children == []
    requires id in r[parent].children
    requires forall c | c in r[parent].children :: c == id || c in pods[parent].children
    requires forall c | c in pods[parent].children :: c in r[parent].children
    ensures Root in r && r[Root].parent == None && ParentLinks(r) && ChildLinks(r)
  {
    AddPodParentLinks(pods, r, parent, id);
    AddPodChildLinks(pods, r, parent, id);
  }

  lemma AddPodParentLinks(pods: Pods, r: Pods, parent: string, id: string)
    requires ParentLinks(pods)
    requires parent in pods && id !in pods && r.Keys == pods.Keys + {id}
    requires forall k | k in pods :: r[k].parent == pods[k].parent
    requires forall k | k in pods && k != parent :: r[k].children == pods[k].children
    requires r[id].parent == Some(parent) && id in r[parent].children
    requires forall c | c in pods[parent].children :: c in r[parent].children
    ensures ParentLinks(r)
  {
    forall k | k in r && k != Root
      ensures r[k].parent.Some? && r[k].parent.value in r && k in r[r[k].parent.value].children
    {
      if k != id {
        var q := pods[k].parent.value;
        assert k in pods[q].children;
      }
    }
  }

  lemma AddPodChildLinks(pods: Pods, r: Pods, parent: string, id: string)
    requires ChildLinks(pods)
    requires parent in pods && id !in pods && r.Keys == pods.Keys + {id}
    requires forall k | k in pods :: r[k].parent == pods[k].parent
    requires forall k | k in pods && k != parent :: r[k].children == pods[k].children
    requires r[id].parent == Some(parent) && r[id].children == []
    requires forall c | c in r[parent].children :: c == id || c in pods[parent].children
    ensures ChildLinks(r)
  {
    forall k, c | k in r && c in r[k].children ensures c in r && r[c].parent == Some(k) {
      if k != parent {
        assert c in pods[k].children;
      } else if c != id {
        assert c in pods[parent].children;
      }
    }
  }

  lemma AddPodDistinct(pods: Pods, r: Pods, parent: string, id: string)
    requires ChildListsDistinct(pods) && parent in pods && r.Keys == pods.Keys + {id}
    requires forall k | k in pods && k != parent :: r[k].children == pods[k].children
    requires r[id].children == [] && NoDup(r[parent].children)
    ensures ChildListsDistinct(r)
  {
    forall k | k in r ensures NoDup(r[k].children) {
      if k != parent && k != id { assert NoDup(pods[k].children); }
    }
  }

  /** A sorted list stays sorted when none of its elements' keys change. */
  lemma SortedUnderSameIndices(pods: Pods, r: Pods, s: seq<string>)
    requires forall c | c in s :: c in pods && c in r && r[c].index == pods[c].index
    requires SortedBy(IndexKeys(pods), s)
    ensures SortedBy(IndexKeys(r), s)
  {
    SortedByAgree(IndexKeys(pods), IndexKeys(r), s);
  }

  lemma AddPodSorted(pods: Pods, r: Pods, parent: string, id: string)
    requires ChildLinks(pods) && ChildListsSorted(pods) && ChildLinks(r)
    requires parent in pods && id !in pods && r.Keys == pods.Keys + {id}
    requires forall k | k in pods && k != parent :: r[k].children == pods[k].children
    requires forall k | k in pods && pods[k].parent != Some(parent) :: r[k].index == pods[k].index
    requires r[id].children == []
    requires SortedBy(IndexKeys(r), r[parent].children)
    ensures ChildListsSorted(r)
  {
    forall k | k in r ensures SortedBy(IndexKeys(r), r[k].children) {
      if k != parent && k != id {
        ChildIndicesKept(pods, r, parent, k);
        assert SortedBy(IndexKeys(pods), pods[k].children);
        SortedUnderSameIndices(pods, r, pods[k].children);
      }
    }
  }

  /** The children of a pod other than the parent keep their indices. */
  lemma ChildIndicesKept(pods: Pods, r: Pods, parent: string, k: string)
    requires ChildLinks(pods) && k in pods && k != parent && pods.Keys <= r.Keys
    requires forall j | j in pods && pods[j].parent != Some(parent) :: r[j].index == pods[j].index
    ensures forall c | c in pods[k].children :: c in pods && c in r && r[c].index == pods[c].index
  {
    forall c | c in pods[k].children ensures c in pods && c in r && r[c].index == pods[c].index {
      assert pods[c].parent == Some(k);
    }
  }

  // ---------------------------------------------------------------------------
  // deletePod
  // ---------------------------------------------------------------------------

  /**
   * The deletePod reducer throws when the pod, its parent or one of the
   * parent's children is missing (reading a property of `undefined`).
   */
  predicate DeletePodThrows(pods: Pods, id: string) {
    || id !in pods || pods[id].parent.None? || pods[id].parent.value !in pods
    || !(forall c | c in pods[pods[id].parent.value].children :: c in pods)
  }

  /** The ids of a list, as a set. */
  function Members(s: seq<string>): (m: set<string>)
    ensures forall x :: x in m <==> x in s
  {
    set x | x in s
  }

  /**
   * The pods after `deletePod`: with `pos` the position of `id` in its
   * parent's child list, every sibling whose index is at least `pos` moves
   * down by one, the entry at `pos` is spliced out of the list, and every id
   * in `toDelete` is cleared.
   */
  function DeletePodSpec(pods: Pods, id: string, toDelete: seq<string>): Pods
    requires !DeletePodThrows(pods, id)
  {
    var parent := pods[id].parent.value;
    var siblings := pods[parent].children;
    var pos := IndexOf(siblings, id);
    var shifted := ShiftIndices(pods, siblings, pos, -1);
    var spliced := shifted[parent := shifted[parent].(children := SpliceOne(siblings, pos))];
    spliced - Members(toDelete)
  }

  /**
   * deletePod's effect: the cleared ids are gone; the siblings whose index
   * is at least the deleted id's position move down by one; nothing else
   * changes but the parent's child list, from which the first occurrence of
   * `id` is removed.
   */
  lemma DeletePodEffect(pods: Pods, id: string, toDelete: seq<string>)
    requires !DeletePodThrows(pods, id)
    requires NoDup(pods[pods[id].parent.value].children)
    ensures var parent := pods[id].parent.value;
      var siblings := pods[parent].children;
      var pos := IndexOf(siblings, id);
      var r := DeletePodSpec(pods, id, toDelete);
      && r.Keys == pods.Keys - Members(toDelete)
      && (forall k | k in r ::
            r[k].index == if k in siblings && pods[k].index >= pos then pods[k].index - 1 else pods[k].index)
      && (forall k | k in r && k != parent :: r[k] == pods[k].(index := r[k].index))
      && (forall k | k in r :: r[k].parent == pods[k].parent)
      && (forall k | k in r && k != parent :: r[k].children == pods[k].children)
      && (parent in r ==> r[parent] == pods[parent].(index := r[parent].index, children := r[parent].children))
      && (parent in r && id in siblings ==>
            r[parent].children == siblings[..pos] + siblings[pos + 1..] && siblings[pos] == id && id !in siblings[..pos])
  {
    var parent := pods[id].parent.value;
    var siblings := pods[parent].children;
    DeletePodSpecShape(pods, id, toDelete);
    ShiftIndicesKeepsFields(pods, siblings, IndexOf(siblings, id), -1);
    ShiftIndicesEffect(pods, siblings, IndexOf(siblings, id), -1);
  }

  /** DeletePodSpec keeps every shifted pod it does not clear but the parent, whose child list is spliced. */
  lemma DeletePodSpecShape(pods: Pods, id: string, toDelete: seq<string>)
    requires !DeletePodThrows(pods, id)
    ensures var parent := pods[id].parent.value;
      var siblings := pods[parent].children;
      var shifted := ShiftIndices(pods, siblings, IndexOf(siblings, id), -1);
      var r := DeletePodSpec(pods, id, toDelete);
      && r.Keys == pods.Keys - Members(toDelete)
      && (forall k | k in r && k != parent :: r[k] == shifted[k])
      && (parent in r ==> r[parent] == shifted[parent].(children := SpliceOne(siblings, IndexOf(siblings, id))))
  {
  }

  /** Removing one element from a repetition-free list leaves it repetition-free, without that element. */
  lemma NoDupRemove(s: seq<string>, p: int)
    requires NoDup(s) && 0 <= p < |s|
    ensures NoDup(s[..p] + s[p + 1..])
    ensures s[p] !in s[..p] + s[p + 1..]
    ensures forall c | c in s && c != s[p] :: c in s[..p] + s[p + 1..]
    ensures forall c | c in s[..p] + s[p + 1..] :: c in s
  {
    var t := s[..p] + s[p + 1..];
    assert forall i | 0 <= i < |t| :: t[i] == if i < p then s[i] else s[i + 1];
    forall c | c in s && c != s[p] ensures c in t {
      var i :| 0 <= i < |s| && s[i] == c;
      if i < p { assert t[i] == c; } else { assert t[i - 1] == c; }
    }
  }

  lemma SortedRemove(key: map<string, int>, s: seq<string>, p: int)
    requires forall y | y in s :: y in key
    requires SortedBy(key, s) && 0 <= p < |s|
    ensures forall y | y in s[..p] + s[p + 1..] :: y in key
    ensures SortedBy(key, s[..p] + s[p + 1..])
  {
    var t := s[..p] + s[p + 1..];
    assert forall i | 0 <= i < |t| :: t[i] == if i < p then s[i] else s[i + 1];
  }

  /** Moving every key at or above a threshold down by one keeps a sorted list sorted. */
  lemma DecrementKeepsSorted(pods: Pods, r: Pods, s: seq<string>, pos: int)
    requires forall c | c in s :: c in pods && c in r
    requires forall c | c in s ::
      r[c].index == if pods[c].index >= pos then pods[c].index - 1 else pods[c].index
    requires SortedBy(IndexKeys(pods), s)
    ensures SortedBy(IndexKeys(r), s)
  {
    var kp := IndexKeys(pods);
    var kr := IndexKeys(r);
    forall i, j | 0 <= i < j < |s| ensures kr[s[i]] <= kr[s[j]] {
      assert kp[s[i]] <= kp[s[j]];
    }
  }

  /** Every collected id but the first is a child of another collected id, which is its parent. */
  lemma SubtreeParents(pods: Pods, id: string)
    requires ChildLinks(pods) && Subtree(pods, id).Some?
    ensures var s := Subtree(pods, id).value;
      forall y | y in s && y != id :: y in pods && pods[y].parent.Some? && pods[y].parent.value in s
  {
    DfsReached(pods, id, {});
    DfsWithin(pods, id, {});
    var s := Subtree(pods, id).value;
    forall y | y in s && y != id ensures y in pods && pods[y].parent.Some? && pods[y].parent.value in s {
      assert y !in [id];
      var z :| z in s && z in pods && y in pods[z].children;
      assert pods[y].parent == Some(z);
    }
  }

  /** The collection is closed under children and never lists `id` as a child. */
  lemma SubtreeClosed(pods: Pods, id: string)
    requires Subtree(pods, id).Some?
    ensures var s := Subtree(pods, id).value;
      && |s| >= 1 && s[0] == id && (forall y | y in s :: y in pods)
      && (forall y, c | y in s && c in pods[y].children :: c in s && c != id)
  {
    DfsWithin(pods, id, {});
    DfsClosed(pods, id, {});
    assert {} + {id} == {id};
  }

  /** Under the tree invariant the root and the parent of `id` are never collected for deletion. */
  lemma SubtreeFacts(pods: Pods, id: string)
    requires WellFormed(pods) && id != Root && Subtree(pods, id).Some?
    ensures var s := Subtree(pods, id).value;
      && |s| >= 1 && s[0] == id && Root !in s && pods[id].parent.value !in s
      && (forall y | y in s :: y in pods)
      && (forall y, c | y in s && c in pods[y].children :: c in s && c != id)
      && (forall y | y in s && y != id :: pods[y].parent.Some? && pods[y].parent.value in s)
  {
    SubtreeClosed(pods, id);
    SubtreeParents(pods, id);
    var parent := pods[id].parent.value;
    assert id in pods[parent].children;
  }

  /**
   * deletePod of a non-root pod whose subtree collection completes, with
   * that collection as `toDelete` (what the middleware passes), keeps the
   * tree invariant.
   */
  lemma DeletePodPreservesWellFormed(pods: Pods, id: string)
    requires WellFormed(pods) && id in pods && id != Root && Subtree(pods, id).Some?
    ensures !DeletePodThrows(pods, id)
    ensures WellFormed(DeletePodSpec(pods, id, Subtree(pods, id).value))
  {
    DeletePodParentList(pods, id);
    DeletePodParentSorted(pods, id);
    var parent := pods[id].parent.value;
    var siblings := pods[parent].children;
    var s := Subtree(pods, id).value;
    DeletePodEffect(pods, id, s);
    SubtreeFacts(pods, id);
    var r := DeletePodSpec(pods, id, s);
    DeletePodLinks(pods, r, parent, id, s);
    DeletePodDistinct(pods, r, parent);
    assert forall k | k in r && pods[k].parent != Some(parent) :: k !in siblings;
    DeletePodSorted(pods, r, parent);
  }

  /** deletePod with the collected subtree, when it does not throw, keeps the tree invariant of a tree that had it. */
  lemma DeletePodKeepsWellFormed(pods: Pods, id: string)
    requires Subtree(pods, id).Some? && !DeletePodThrows(pods, id)
    ensures WellFormed(pods) ==> WellFormed(DeletePodSpec(pods, id, Subtree(pods, id).value))
  {
    if WellFormed(pods) {
      DeletePodPreservesWellFormed(pods, id);
    }
  }

  /** No sibling of `id` is collected with it: their parent is not collected. */
  lemma SiblingsNotCollected(pods: Pods, id: string)
    requires WellFormed(pods) && id in pods && id != Root && Subtree(pods, id).Some?
    ensures var parent := pods[id].parent.value;
      forall c | c in pods[parent].children && c != id ::
        c in pods && pods[c].parent == Some(parent) && c !in Subtree(pods, id).value
  {
    SubtreeFacts(pods, id);
    var parent := pods[id].parent.value;
    forall c | c in pods[parent].children && c != id
      ensures c in pods && pods[c].parent == Some(parent) && c !in Subtree(pods, id).value
    {
      assert pods[c].parent == Some(parent);
    }
  }

  /** The parent's child list after deletePod: the siblings without `id`, repetition-free and present. */
  lemma DeletePodParentList(pods: Pods, id: string)
    requires WellFormed(pods) && id in pods && id != Root && Subtree(pods, id).Some?
    ensures !DeletePodThrows(pods, id)
    ensures var parent := pods[id].parent.value;
      var siblings := pods[parent].children;
      var pos := IndexOf(siblings, id);
      var r := DeletePodSpec(pods, id, Subtree(pods, id).value);
      && NoDup(siblings) && 0 <= pos < |siblings| && parent in r
      && r[parent].children == siblings[..pos] + siblings[pos + 1..]
      && NoDup(r[parent].children) && id !in r[parent].children
      && (forall c | c in r[parent].children :: c in siblings && c in r)
      && (forall c | c in siblings && c != id :: c in r[parent].children)
  {
    var parent := pods[id].parent.value;
    var siblings := pods[parent].children;
    assert id in siblings;
    assert NoDup(siblings);
    var s := Subtree(pods, id).value;
    SubtreeFacts(pods, id);
    DeletePodEffect(pods, id, s);
    SiblingsNotCollected(pods, id);
    NoDupRemove(siblings, IndexOf(siblings, id));
  }

  /** The parent's child list after deletePod is sorted by the new indices. */
  lemma DeletePodParentSorted(pods: Pods, id: string)
    requires WellFormed(pods) && id in pods && id != Root && Subtree(pods, id).Some?
    ensures !DeletePodThrows(pods, id)
    ensures var parent := pods[id].parent.value;
      var r := DeletePodSpec(pods, id, Subtree(pods, id).value);
      && parent in r && (forall c | c in r[parent].children :: c in r)
      && SortedBy(IndexKeys(r), r[parent].children)
  {
    DeletePodParentList(pods, id);
    var parent := pods[id].parent.value;
    var siblings := pods[parent].children;
    var s := Subtree(pods, id).value;
    DeletePodEffect(pods, id, s);
    var r := DeletePodSpec(pods, id, s);
    var pos := IndexOf(siblings, id);
    assert SortedBy(IndexKeys(pods), siblings);
    SortedRemove(IndexKeys(pods), siblings, pos);
    DecrementKeepsSorted(pods, r, r[parent].children, pos);
  }

  lemma DeletePodLinks(pods: Pods, r: Pods, parent: string, id: string, s: seq<string>)
    requires Root in pods && pods[Root].parent == None && ParentLinks(pods) && ChildLinks(pods)
    requires forall y | y in s :: y in pods
    requires Root !in s && parent in pods && parent !in s && id in s
    requires pods[id].parent == Some(parent)
    requires forall y, c | y in s && c in pods[y].children :: c in s
    requires forall y | y in s && y != id :: y in pods && pods[y].parent.Some? && pods[y].parent.value in s
    requires r.Keys == pods.Keys - Members(s)
    requires forall k | k in r :: r[k].parent == pods[k].parent
    requires forall k | k in r && k != parent :: r[k].children == pods[k].children
    requires id !in r[parent].children
    requires forall c | c in pods[parent].children && c != id :: c in r[parent].children
    requires forall c | c in r[parent].children :: c in pods[parent].children
    ensures Root in r && r[Root].parent == None && ParentLinks(r) && ChildLinks(r)
  {
    DeletePodParentLinks(pods, r, parent, id, s);
    DeletePodChildLinks(pods, r, parent, id, s);
  }

  lemma DeletePodParentLinks(pods: Pods, r: Pods, parent: string, id: string, s: seq<string>)
    requires ParentLinks(pods)
    requires forall y | y in s :: y in pods
    requires parent in pods && parent !in s && id in s
    requires forall y, c | y in s && c in pods[y].children :: c in s
    requires r.Keys == pods.Keys - Members(s)
    requires forall k | k in r :: r[k].parent == pods[k].parent
    requires forall k | k in r && k != parent :: r[k].children == pods[k].children
    requires forall c | c in pods[parent].children && c != id :: c in r[parent].children
    ensures ParentLinks(r)
  {
    forall k | k in r && k != Root
      ensures r[k].parent.Some? && r[k].parent.value in r && k in r[r[k].parent.value].children
    {
      var q := pods[k].parent.value;
      assert k in pods[q].children;
      assert k !in s;
      assert q !in s;
    }
  }

  lemma DeletePodChildLinks(pods: Pods, r: Pods, parent: string, id: string, s: seq<string>)
    requires ChildLinks(pods)
    requires id in pods && pods[id].parent == Some(parent)
    requires forall y | y in s && y != id :: y in pods && pods[y].parent.Some? && pods[y].parent.value in s
    requires parent in pods && r.Keys == pods.Keys - Members(s) && parent in r
    requires forall k | k in r :: r[k].parent == pods[k].parent
    requires forall k | k in r && k != parent :: r[k].children == pods[k].children
    requires id !in r[parent].children
    requires forall c | c in r[parent].children :: c in pods[parent].children
    ensures ChildLinks(r)
  {
    forall k, c | k in r && c in r[k].children ensures c in r && r[c].parent == Some(k) {
      assert c in pods[k].children;
      assert pods[c].parent == Some(k);
      assert c != id;
      assert k !in s;
    }
  }

  lemma DeletePodDistinct(pods: Pods, r: Pods, parent: string)
    requires ChildListsDistinct(pods) && r.Keys <= pods.Keys
    requires forall k | k in r && k != parent :: r[k].children == pods[k].children
    requires parent in r ==> NoDup(r[parent].children)
    ensures ChildListsDistinct(r)
  {
    forall k | k in r ensures NoDup(r[k].children) {
      if k != parent { assert NoDup(pods[k].children); }
    }
  }

  lemma DeletePodSorted(pods: Pods, r: Pods, parent: string)
    requires ChildLinks(pods) && ChildListsSorted(pods) && ChildLinks(r) && r.Keys <= pods.Keys
    requires forall k | k in r && k != parent :: r[k].children == pods[k].children
    requires forall k | k in r && pods[k].parent != Some(parent) :: r[k].index == pods[k].index
    requires parent in r ==> SortedBy(IndexKeys(r), r[parent].children)
    ensures ChildListsSorted(r)
  {
    forall k | k in r ensures SortedBy(IndexKeys(r), r[k].children) {
      if k != parent {
        var s := pods[k].children;
        forall c | c in s ensures c in pods && c in r && r[c].index == pods[c].index {
          assert r[c].parent == Some(k);
          assert pods[c].parent != Some(parent);
        }
        assert SortedBy(IndexKeys(pods), s);
        SortedUnderSameIndices(pods, r, s);
      }
    }
  }

  // ---------------------------------------------------------------------------
  // Worked examples
  // ---------------------------------------------------------------------------

  /** A code pod with the given links, as the examples below use. */
  function Leaf(id: string, parent: string, index: int, children: seq<string>): Pod {
    Pod(id, "CODE", "", EmptyDoc, Str(""), Str(""), NoError, index, Some(parent), children, Some(Synced), None)
  }

  /** Deleting a pod with two children collects three ids, the pod first. */
  lemma DeleteCollectsTwoDescendants()
    ensures var pods := map[Root := RootPod(["A"]), "A" := Leaf("A", Root, 0, ["B", "C"]),
                            "B" := Leaf("B", "A", 0, []), "C" := Leaf("C", "A", 1, [])];
      Subtree(pods, "A") == Some(["A", "B", "C"])
  {
    var pods := map[Root := RootPod(["A"]), "A" := Leaf("A", Root, 0, ["B", "C"]),
                    "B" := Leaf("B", "A", 0, []), "C" := Leaf("C", "A", 1, [])];
    var ab := {"A"};
    assert "B" in pods && "B" !in ab && pods["B"].children == [];
    assert DfsList(pods, [], ab + {"B"}) == Some([]);
    assert ["B"] + [] == ["B"];
    assert Dfs(pods, "B", ab) == Some(["B"]);
    assert "C" in pods && "C" !in ab && pods["C"].children == [];
    assert DfsList(pods, [], ab + {"C"}) == Some([]);
    assert ["C"] + [] == ["C"];
    assert Dfs(pods, "C", ab) == Some(["C"]);
    assert ["C"][1..] == [];
    assert DfsList(pods, ["C"], ab) == Some(["C"]);
    assert ["B", "C"][1..] == ["C"];
    assert ["B"] + ["C"] == ["B", "C"];
    assert DfsList(pods, ["B", "C"], ab) == Some(["B", "C"]);
    assert {} + {"A"} == ab;
    assert "A" in pods && pods["A"].children == ["B", "C"];
    assert ["A"] + ["B", "C"] == ["A", "B", "C"];
  }

  /** Adding a pod at index 0 in front of an existing child moves that child to index 1 and lists the new pod first. */
  lemma AddInFrontOfSibling(nid: string)
    requires nid != Root && nid != "X"
    ensures var pods := map[Root := RootPod(["X"]), "X" := Leaf("X", Root, 0, [])];
      var r := AddPodSpec(pods, Root, 0, "CODE", nid);
      && r["X"].index == 1 && r[nid].index == 0 && r[Root].children == [nid, "X"]
  {
    var pods := map[Root := RootPod(["X"]), "X" := Leaf("X", Root, 0, [])];
    assert pods[Root].children == ["X"] && pods["X"].index == 0;
    assert NoDup(["X"]);
    AddPodShiftsSiblings(pods, Root, 0, "CODE", nid);
    AddPodInsertsChild(pods, Root, 0, "CODE", nid);
    var r := AddPodSpec(pods, Root, 0, "CODE", nid);
    assert r["X"].index == 1 && r[nid].index == 0;
    assert multiset(r[Root].children) == multiset{nid, "X"} by {
      assert multiset(["X"]) == multiset{"X"};
    }
    TwoSorted(IndexKeys(r), r[Root].children, nid, "X");
  }

  /** A list sorted by a key that holds two distinct elements with different keys lists the smaller first. */
  lemma TwoSorted(key: map<string, int>, s: seq<string>, a: string, b: string)
    requires multiset(s) == multiset{a, b} && a != b
    requires forall y | y in s :: y in key
    requires a in key && b in key && key[a] < key[b]
    requires SortedBy(key, s)
    ensures s == [a, b]
  {
    assert |s| == |multiset(s)| == 2;
    assert s == [s[0]] + [s[1]];
    assert multiset(s) == multiset{s[0]} + multiset{s[1]};
  }
}
