/**
 * The namespace of a pod: the ids of its ancestors below the root, from the
 * outermost to the innermost, joined with "/". The store reads it by walking
 * parent links up to the root.
 */
module PodNamespace {
  import opened Wrappers
  import opened PodModel
  import opened PodTree

  /**
   * The ids the upward walk from `id` visits before it reaches the root,
   * `id` first, when it reaches the root within `steps` parent links. `None`
   * where the walk does not reach the root: a missing pod or a parentless
   * pod other than the root makes the source read a field of `undefined`,
   * and a cycle makes it loop.
   */
  function Chain(pods: Pods, id: string, steps: nat): Option<seq<string>>
    decreases steps
  {
    if id == Root then Some([])
    else if steps == 0 || id !in pods || pods[id].parent.None? then None
    else
      match Chain(pods, pods[id].parent.value, steps - 1)
      case None => None
      case Some(rest) => Some([id] + rest)
  }

  /** Once the walk reaches the root, a larger step bound finds the same walk. */
  lemma {:induction false} ChainStable(pods: Pods, id: string, n: nat, m: nat)
    requires Chain(pods, id, n).Some? && n <= m
    ensures Chain(pods, id, m) == Chain(pods, id, n)
    decreases n
  {
    if id != Root {
      ChainStable(pods, pods[id].parent.value, n - 1, m - 1);
    }
  }

  /** The walk does not depend on the step bound it was found with. */
  lemma ChainUnique(pods: Pods, id: string, n: nat, m: nat)
    requires Chain(pods, id, n).Some? && Chain(pods, id, m).Some?
    ensures Chain(pods, id, n) == Chain(pods, id, m)
  {
    if n <= m { ChainStable(pods, id, n, m); } else { ChainStable(pods, id, m, n); }
  }

  /**
   * The walk follows parent links: it starts at `id`, never visits the
   * root, each visited pod's parent is the next one, and the last one's
   * parent is the root.
   */
  lemma {:induction false} ChainFollowsParents(pods: Pods, id: string, steps: nat)
    requires Chain(pods, id, steps).Some?
    ensures var c := Chain(pods, id, steps).value;
      && (id == Root <==> c == [])
      && (c != [] ==> c[0] == id)
      && (forall i | 0 <= i < |c| :: c[i] != Root && c[i] in pods && pods[c[i]].parent.Some?)
      && (forall i | 0 <= i < |c| - 1 :: pods[c[i]].parent == Some(c[i + 1]))
      && (c != [] ==> pods[c[|c| - 1]].parent == Some(Root))
    decreases steps
  {
    if id != Root {
      var q := pods[id].parent.value;
      ChainFollowsParents(pods, q, steps - 1);
      var rest := Chain(pods, q, steps - 1).value;
      var c := [id] + rest;
      assert forall i | 1 <= i < |c| :: c[i] == rest[i - 1];
    }
  }

  function Reverse(s: seq<string>): (r: seq<string>)
    ensures |r| == |s|
    ensures forall i | 0 <= i < |s| :: r[i] == s[|s| - 1 - i]
  {
    if s == [] then [] else Reverse(s[1..]) + [s[0]]
  }

  /** `parts.join(sep)`. */
  function Join(parts: seq<string>, sep: string): (r: string)
    ensures parts == [] ==> r == ""
    ensures |parts| == 1 ==> r == parts[0]
  {
    if parts == [] then ""
    else if |parts| == 1 then parts[0]
    else Join(parts[..|parts| - 1], sep) + sep + parts[|parts| - 1]
  }

  /** Appending one part to a non-empty list adds a separator and that part. */
  lemma JoinSnoc(p: seq<string>, x: string, sep: string)
    requires p != []
    ensures Join(p + [x], sep) == Join(p, sep) + sep + x
  {
    var q := p + [x];
    assert q[..|q| - 1] == p;
  }

  /** Joining two non-empty lists of parts puts one separator between their joins. */
  lemma {:induction false} JoinAppend(a: seq<string>, b: seq<string>, sep: string)
    requires a != [] && b != []
    ensures Join(a + b, sep) == Join(a, sep) + sep + Join(b, sep)
    decreases |b|
  {
    var n := |b| - 1;
    var init := b[..n];
    assert b == init + [b[n]];
    assert a + b == (a + init) + [b[n]];
    JoinSnoc(a + init, b[n], sep);
    if n == 0 {
      assert a + init == a;
    } else {
      JoinAppend(a, init, sep);
      JoinSnoc(init, b[n], sep);
    }
  }

  /** `res.slice(1)`: everything after the first element. */
  function DropFirst(s: seq<string>): seq<string>
  {
    if s == [] then [] else s[1..]
  }

  /** The ancestors of `id` strictly between it and the root, outermost first. */
  function Ancestors(pods: Pods, id: string, steps: nat): seq<string>
    requires Chain(pods, id, steps).Some?
  {
    Reverse(DropFirst(Chain(pods, id, steps).value))
  }

  /**
   * The ancestor list runs from a child of the root down to the parent of
   * `id`, each element the parent of the next, and holds neither `id` nor
   * the root.
   */
  lemma AncestorsOutermostFirst(pods: Pods, id: string, steps: nat)
    requires id != Root && Chain(pods, id, steps).Some?
    ensures var a := Ancestors(pods, id, steps);
      && (forall i | 0 <= i < |a| :: a[i] != Root && a[i] in pods)
      && (a != [] ==> pods[a[0]].parent == Some(Root))
      && (a != [] ==> pods[id].parent == Some(a[|a| - 1]))
      && (a == [] <==> pods[id].parent == Some(Root))
      && (forall i | 0 <= i < |a| - 1 :: pods[a[i + 1]].parent == Some(a[i]))
  {
    ChainFollowsParents(pods, id, steps);
    var c := Chain(pods, id, steps).value;
    var a := Ancestors(pods, id, steps);
    assert |a| == |c| - 1;
    assert forall i | 0 <= i < |a| :: a[i] == c[|c| - 1 - i];
  }

  /** A walk that reaches the root visits no pod twice; in particular `id` is not among its own ancestors. */
  lemma {:induction false} ChainNoRepeat(pods: Pods, id: string, steps: nat)
    requires Chain(pods, id, steps).Some?
    ensures NoDup(Chain(pods, id, steps).value)
    decreases steps
  {
    if id != Root {
      var q := pods[id].parent.value;
      ChainNoRepeat(pods, q, steps - 1);
      var rest := Chain(pods, q, steps - 1).value;
      var c := [id] + rest;
      assert forall i | 1 <= i < |c| :: c[i] == rest[i - 1];
      forall k | 0 <= k < |rest| ensures rest[k] != id {
        ChainFrom(pods, q, steps - 1, k);
        ChainStable(pods, rest[k], steps - 1 - k, steps);
      }
    }
  }

  /** The walk's suffix from position `k` is the walk from its `k`-th pod. */
  lemma {:induction false} ChainFrom(pods: Pods, q: string, steps: nat, k: nat)
    requires Chain(pods, q, steps).Some? && k < |Chain(pods, q, steps).value|
    ensures k <= steps
    ensures Chain(pods, Chain(pods, q, steps).value[k], steps - k) == Some(Chain(pods, q, steps).value[k..])
    decreases steps
  {
    if k > 0 {
      var p := pods[q].parent.value;
      var rest := Chain(pods, p, steps - 1).value;
      var c := [q] + rest;
      assert c[k] == rest[k - 1] && c[k..] == rest[k - 1..];
      ChainFrom(pods, p, steps - 1, k - 1);
    }
  }

  /** The namespace of `id`: its ancestors below the root joined with "/". */
  function Namespace(pods: Pods, id: string, steps: nat): string
    requires Chain(pods, id, steps).Some?
  {
    Join(Ancestors(pods, id, steps), "/")
  }

  /** A pod directly under the root has the empty namespace. */
  lemma NamespaceUnderRoot(pods: Pods, id: string, steps: nat)
    requires id != Root && id in pods && pods[id].parent == Some(Root) && steps >= 1
    ensures Chain(pods, id, steps) == Some([id])
    ensures Namespace(pods, id, steps) == ""
  {
    assert [id] + [] == [id];
  }

  /**
   * `selectNamespace`: walk parent links from `id` up to the root, then
   * drop `id`, reverse and join. The walk must reach the root (the
   * source throws or loops otherwise); `steps` is a bound it does so within.
   */
  method SelectNamespace(pods: Pods, id: string, ghost steps: nat) returns (ns: string)
    requires Chain(pods, id, steps).Some?
    ensures ns == Namespace(pods, id, steps)
  {
    var res: seq<string> := [];
    var cur := id;
    ghost var n := steps;
    while cur != Root
      invariant Chain(pods, cur, n).Some?
      invariant res + Chain(pods, cur, n).value == Chain(pods, id, steps).value
      decreases n
    {
      assert res + [cur] + Chain(pods, pods[cur].parent.value, n - 1).value == res + Chain(pods, cur, n).value;
      res := res + [cur];
      cur := pods[cur].parent.value;
      n := n - 1;
    }
    assert res == Chain(pods, id, steps).value;
    ns := Join(Reverse(DropFirst(res)), "/");
  }

  /** One step of the walk: a pod whose parent's walk reaches the root. */
  lemma ChainStep(pods: Pods, id: string, q: string, steps: nat, rest: seq<string>)
    requires id != Root && id in pods && pods[id].parent == Some(q) && steps >= 1
    requires Chain(pods, q, steps - 1) == Some(rest)
    ensures Chain(pods, id, steps) == Some([id] + rest)
  {
  }

  /** A pod two levels below a child of the root: the namespace names the outer ancestor first. */
  lemma NamespaceTwoLevels()
    ensures var pods := map[Root := RootPod(["A"]), "A" := Leaf("A", Root, 0, ["B"]),
                            "B" := Leaf("B", "A", 0, ["C"]), "C" := Leaf("C", "B", 0, [])];
      Chain(pods, "C", 3) == Some(["C", "B", "A"]) && Namespace(pods, "C", 3) == "A/B"
  {
    var pods := map[Root := RootPod(["A"]), "A" := Leaf("A", Root, 0, ["B"]),
                    "B" := Leaf("B", "A", 0, ["C"]), "C" := Leaf("C", "B", 0, [])];
    assert pods["A"].parent == Some(Root) && pods["B"].parent == Some("A") && pods["C"].parent == Some("B");
    ChainStep(pods, "A", Root, 1, []);
    assert ["A"] + [] == ["A"];
    ChainStep(pods, "B", "A", 2, ["A"]);
    assert ["B"] + ["A"] == ["B", "A"];
    ChainStep(pods, "C", "B", 3, ["B", "A"]);
    assert ["C"] + ["B", "A"] == ["C", "B", "A"];
    var a := Reverse(DropFirst(["C", "B", "A"]));
    assert a == ["A", "B"];
    assert a[..1] == ["A"];
    assert Join(a, "/") == "A" + "/" + "B";
  }

  // ---------------------------------------------------------------------------
  // The selector as written: the walk overwrites the captured id
  // ---------------------------------------------------------------------------

  /**
   * The closure `selectNamespace(id)` returns. Its loop assigns to the `id`
   * it closes over, so the variable persists from one evaluation to the next.
   */
  class NamespaceSelector {
    var id: string

    constructor (id: string)
      ensures this.id == id
    {
      this.id := id;
    }

    /** One evaluation: the namespace of the captured id, which the walk leaves at `ROOT`. */
    method Select(pods: Pods, ghost steps: nat) returns (ns: string)
      requires Chain(pods, id, steps).Some?
      modifies this
      ensures ns == Namespace(pods, old(id), steps)
      ensures id == Root
    {
      ghost var start := id;
      var res: seq<string> := [];
      ghost var n := steps;
      while id != Root
        invariant Chain(pods, id, n).Some?
        invariant res + Chain(pods, id, n).value == Chain(pods, start, steps).value
        decreases n
      {
        assert res + [id] + Chain(pods, pods[id].parent.value, n - 1).value == res + Chain(pods, id, n).value;
        res := res + [id];
        id := pods[id].parent.value;
        n := n - 1;
      }
      assert res == Chain(pods, start, steps).value;
      ns := Join(Reverse(DropFirst(res)), "/");
    }
  }

  /** Evaluating the same selector twice: the first evaluation gives "A/B", the second "". */
  method SelectorReusedIsEmpty() returns (first: string, second: string)
    ensures first == "A/B" && second == ""
  {
    var pods := map[Root := RootPod(["A"]), "A" := Leaf("A", Root, 0, ["B"]),
                    "B" := Leaf("B", "A", 0, ["C"]), "C" := Leaf("C", "B", 0, [])];
    NamespaceTwoLevels();
    var sel := new NamespaceSelector("C");
    first := sel.Select(pods, 3);
    second := sel.Select(pods, 0);
  }

  /** With the id taken afresh on every evaluation, evaluating twice gives "A/B" both times. */
  method SelectTwiceAgrees() returns (first: string, second: string)
    ensures first == "A/B" && second == "A/B"
  {
    var pods := map[Root := RootPod(["A"]), "A" := Leaf("A", Root, 0, ["B"]),
                    "B" := Leaf("B", "A", 0, ["C"]), "C" := Leaf("C", "B", 0, [])];
    NamespaceTwoLevels();
    first := SelectNamespace(pods, "C", 3);
    second := SelectNamespace(pods, "C", 3);
  }
}
