/** The part of a workload's spec document that its handler patches. */
module FieldDocs {
  import opened Wrappers
  import opened Api
  import opened Checkpoint
  import opened MergePatch

  /** Unset and empty members are omitted. */
  function DocOf(f: Field): (doc: Json)
    ensures doc.Obj?
  {
    match f
    case Replicas(count) => Obj(if count.Some? then map["replicas" := Num(count.value)] else map[])
    case Suspend(flag) => Obj(if flag.Some? then map["suspend" := Bool(flag.value)] else map[])
    case Bounds(min, max) =>
      Obj(map["maxReplicas" := Num(max)] + if min.Some? then map["minReplicas" := Num(min.value)] else map[])
    case NodeSelector(labels) =>
      Obj(if labels == map[] then map[] else map["nodeSelector" := Obj(map k | k in labels :: Str(labels[k]))])
  }

  function IntMember(doc: Json, k: string): Option<Int32>
    requires doc.Obj?
  {
    if k in doc.members && doc.members[k].Num? && -0x8000_0000 <= doc.members[k].n < 0x8000_0000
    then Some(doc.members[k].n) else None
  }

  /** The field read back from a spec document. */
  function FieldIn(shape: Shape, doc: Json): Field
    requires doc.Obj?
  {
    match shape
    case ReplicaShape => Replicas(IntMember(doc, "replicas"))
    case SuspendShape =>
      Suspend(if "suspend" in doc.members && doc.members["suspend"].Bool? then Some(doc.members["suspend"].b) else None)
    case BoundsShape =>
      Bounds(IntMember(doc, "minReplicas"),
             if IntMember(doc, "maxReplicas").Some? then IntMember(doc, "maxReplicas").value else 0)
    case SelectorShape =>
      NodeSelector(
        if "nodeSelector" in doc.members && doc.members["nodeSelector"].Obj? then
          var ms := doc.members["nodeSelector"].members;
          map k | k in ms && ms[k].Str? :: ms[k].s
        else map[])
  }

  lemma FieldInDoc(f: Field)
    ensures FieldIn(ShapeOf(f), DocOf(f)) == f
  {}

  lemma DocIsNullFree(f: Field)
    ensures NullFree(DocOf(f))
  {}

  /** The merge patch from the live field to the wanted one makes the wanted field live,
      whatever the live field was. */
  lemma PatchRoundTrip(live: Field, want: Field)
    requires ShapeOf(live) == ShapeOf(want)
    ensures Apply(DocOf(live), Diff(DocOf(live), DocOf(want))).Obj?
    ensures FieldIn(ShapeOf(live), Apply(DocOf(live), Diff(DocOf(live), DocOf(want)))) == want
  {
    DocIsNullFree(live);
    DocIsNullFree(want);
    ApplyDiff(DocOf(live), DocOf(want));
    FieldInDoc(want);
  }

  /** Restoring a DaemonSet removes the sentinel and every label added while asleep, and
      brings back exactly the checkpointed ones. */
  lemma SelectorPatchIsExact(live: map<string, string>, original: map<string, string>)
    ensures var patched := Apply(DocOf(NodeSelector(live)), Diff(DocOf(NodeSelector(live)), DocOf(NodeSelector(original))));
            patched.Obj? && FieldIn(SelectorShape, patched) == NodeSelector(original)
  {
    PatchRoundTrip(NodeSelector(live), NodeSelector(original));
  }
}
