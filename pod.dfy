/**
 * The pod record of the client-side store, its content fingerprint and the
 * dirty-tracking rule that compares the fingerprint with the last one the
 * server acknowledged.
 */
module PodModel {
  import opened Wrappers

  /** Id of the synthetic top-level container. */
  const Root: string := "ROOT"

  /**
   * A field value as the store holds it. JSON parsing is not modelled: a
   * parsed value is kept as the text it was parsed from, so equal parsed
   * values are equal exactly when their texts are.
   */
  datatype Value =
    | Absent                              // undefined or null
    | Str(s: string)                      // a string as transported
    | Parsed(source: string)              // the result of parsing `source`
    | EmptyDoc                            // the one-empty-paragraph document a new pod starts with
    | ResultRecord(text: string, count: int)  // a result delivered by the runtime

  /** JavaScript truthiness of a value: `undefined`, `null` and `""` are falsy. */
  predicate Truthy(v: Value) {
    !(v.Absent? || v == Str(""))
  }

  /** Parsing a transported value; `null` parses to itself. */
  function Parse(v: Value): (r: Value)
    ensures v.Str? ==> r == Parsed(v.s)
    ensures !v.Str? ==> r == v
  {
    match v
    case Str(s) => Parsed(s)
    case _ => v
  }

  /** The `error` field: `null`, a simple message, or a structured error. */
  datatype ErrorInfo =
    | NoError
    | SimpleError(evalue: string)
    | FullError(ename: string, evalue: string, stacktrace: string)

  datatype Status = Synced | Dirty | Syncing

  /**
   * The fingerprint of a pod: the six fields the source serialises and
   * digests. Only equality of fingerprints is ever used, so the record
   * itself stands for its digest.
   */
  datatype Fingerprint = Fingerprint(
    id: string, content: Value, podType: string, lang: string, result: Value, stdout: Value)

  /**
   * A pod. `parent` is `None` only for the root; `status` and `remoteHash`
   * are `None` where the source leaves them undefined (the root).
   */
  datatype Pod = Pod(
    id: string,
    podType: string,
    lang: string,
    content: Value,
    result: Value,
    stdout: Value,
    error: ErrorInfo,
    index: int,
    parent: Option<string>,
    children: seq<string>,
    status: Option<Status>,
    remoteHash: Option<Fingerprint>)

  /** The fingerprint of a pod's synchronised fields. */
  function HashPod(p: Pod): Fingerprint {
    Fingerprint(p.id, p.content, p.podType, p.lang, p.result, p.stdout)
  }

  /** Two pods have the same fingerprint exactly when they agree on the six synchronised fields. */
  predicate SameSyncedFields(p: Pod, q: Pod) {
    && p.id == q.id && p.content == q.content && p.podType == q.podType
    && p.lang == q.lang && p.result == q.result && p.stdout == q.stdout
  }

  lemma HashPodDependsOnSyncedFields(p: Pod, q: Pod)
    ensures HashPod(p) == HashPod(q) <==> SameSyncedFields(p, q)
  {
  }

  /** The pod with its status recomputed: dirty unless its fingerprint is the acknowledged one. */
  function ComputePodStatus(p: Pod): (q: Pod)
    ensures q == p.(status := q.status)
    ensures q.status == Some(Dirty) <==> p.remoteHash != Some(HashPod(p))
    ensures q.status == Some(Synced) <==> p.remoteHash == Some(HashPod(p))
  {
    if p.remoteHash != Some(HashPod(p)) then p.(status := Some(Dirty))
    else p.(status := Some(Synced))
  }

  /** Recomputing the status does not change the fingerprint, so it is idempotent. */
  lemma ComputePodStatusIdempotent(p: Pod)
    ensures HashPod(ComputePodStatus(p)) == HashPod(p)
    ensures ComputePodStatus(ComputePodStatus(p)) == ComputePodStatus(p)
  {
  }

  /**
   * The pod the store creates for `addPod`: placeholder content, empty
   * results, no children, synced, with its own fingerprint as the
   * acknowledged one. `lang` is not set by the source; it is "" here.
   */
  function NewPod(id: string, podType: string, index: int, parent: string): (p: Pod)
    ensures p.id == id && p.podType == podType && p.index == index && p.parent == Some(parent)
    ensures p.children == [] && p.status == Some(Synced)
    ensures p.remoteHash == Some(HashPod(p))
    ensures ComputePodStatus(p) == p
  {
    var made := Pod(id, podType, "", EmptyDoc, Str(""), Str(""), NoError, index,
                     Some(parent), [], Some(Synced), None);
    made.(remoteHash := Some(HashPod(made)))
  }

  /** The synthetic root: a DECK with the given children and nothing else set. */
  function RootPod(children: seq<string>): Pod {
    Pod(Root, "DECK", "", Absent, Absent, Absent, NoError, 0, None, children, None, None)
  }
}
