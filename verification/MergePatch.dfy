/** client.MergeFrom and the server side of a JSON merge patch (section 2 of RFC 7396). */
module MergePatch {

  datatype Json =
    | Null
    | Bool(b: bool)
    | Num(n: int)
    | Str(s: string)
    | Arr(items: seq<Json>)
    | Obj(members: map<string, Json>)

  /** A patch cannot store null: the members of a document hold none (arrays are opaque). */
  predicate NullFree(j: Json) {
    !j.Null? && (j.Obj? ==> forall k :: k in j.members ==> NullFree(j.members[k]))
  }

  /** MergePatch(Target, Patch) of the RFC: a null member removes, any other is merged in. */
  function Apply(target: Json, patch: Json): Json
    decreases patch
  {
    if patch.Obj? then
      var base := if target.Obj? then target.members else map[];
      Obj(map k | k in base.Keys + patch.members.Keys && !(k in patch.members && patch.members[k].Null?) ::
            if k in patch.members then Apply(if k in base then base[k] else Null, patch.members[k]) else base[k])
    else
      patch
  }

  predicate Differs(b: map<string, Json>, a: map<string, Json>, k: string) {
    (k in b) != (k in a) || (k in a && b[k] != a[k])
  }

  /** The patch sent by the client: members that differ, with null for the removed ones. */
  function Diff(before: Json, after: Json): Json
    requires after.Obj?
    decreases after
  {
    if before.Obj? then
      var b, a := before.members, after.members;
      Obj(map k | k in b.Keys + a.Keys && Differs(b, a, k) ::
            if k !in a then Null
            else if a[k].Obj? && k in b then Diff(b[k], a[k])
            else a[k])
    else
      after
  }

  /** A document without nulls replaces an absent or scalar member unchanged. */
  lemma {:induction false} ApplyToScalar(target: Json, doc: Json)
    requires NullFree(doc) && !target.Obj?
    ensures Apply(target, doc) == doc
    decreases doc
  {
    if doc.Obj? {
      forall k | k in doc.members ensures Apply(Null, doc.members[k]) == doc.members[k] {
        ApplyToScalar(Null, doc.members[k]);
      }
    }
  }

  /** Applying the difference to the document it was taken from yields the wanted document. */
  lemma {:induction false} ApplyDiff(before: Json, after: Json)
    requires NullFree(before) && NullFree(after) && after.Obj?
    ensures Apply(before, Diff(before, after)) == after
    decreases after
  {
    if before.Obj? {
      var b, a := before.members, after.members;
      forall k | k in a && Differs(b, a, k) ensures Apply(if k in b then b[k] else Null, MemberPatch(b, a, k)) == a[k] {
        if k in b && a[k].Obj? { ApplyDiff(b[k], a[k]); } else { ApplyToScalar(Null, a[k]); }
      }
      MergeMembers(before, after);
    } else {
      ApplyToScalar(before, after);
    }
  }

  ghost function MemberPatch(b: map<string, Json>, a: map<string, Json>, k: string): Json
    requires k in a
  {
    if a[k].Obj? && k in b then Diff(b[k], a[k]) else a[k]
  }

  /** If every changed member merges to the wanted one, the documents do. */
  lemma MergeMembers(before: Json, after: Json)
    requires before.Obj? && after.Obj? && NullFree(after)
    requires var b, a := before.members, after.members;
             forall k :: k in a && Differs(b, a, k) ==>
               Apply(if k in b then b[k] else Null, MemberPatch(b, a, k)) == a[k]
    ensures Apply(before, Diff(before, after)) == after
  {}

  /** The patch names only the members that differ, so whatever others write into the rest
      of the document stays. */
  lemma DiffTouchesOnlyChanges(before: Json, after: Json, live: Json, k: string)
    requires before.Obj? && after.Obj? && live.Obj?
    requires k in before.members && k in after.members && before.members[k] == after.members[k]
    ensures k !in Diff(before, after).members
    ensures k in live.members ==>
              k in Apply(live, Diff(before, after)).members
              && Apply(live, Diff(before, after)).members[k] == live.members[k]
  {}
}
