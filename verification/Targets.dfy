/** internal/workload/registry.go and resolve.go: which workloads a schedule acts on. */
module Targets {
  import opened Wrappers
  import opened Api
  import opened Checkpoint
  import opened Workloads
  import opened Cluster
  import opened ApiServer
  import Lexical

  // ---------- registry.go ----------

  datatype Handler = Handler(kind: string, shape: Shape)

  /** First occurrences, in order. */
  function Distinct(ks: seq<string>): seq<string> {
    if ks == [] then []
    else
      var front := Distinct(ks[..|ks| - 1]);
      if ks[|ks| - 1] in front then front else front + [ks[|ks| - 1]]
  }

  lemma {:induction false} DistinctKeepsMembers(ks: seq<string>)
    ensures forall k :: k in Distinct(ks) <==> k in ks
    ensures forall i, j :: 0 <= i < j < |Distinct(ks)| ==> Distinct(ks)[i] != Distinct(ks)[j]
  {
    if ks != [] {
      DistinctKeepsMembers(ks[..|ks| - 1]);
      assert forall k :: k in ks <==> k in ks[..|ks| - 1] || k == ks[|ks| - 1];
    }
  }

  function KindsOf(hs: seq<Handler>): seq<string> {
    if hs == [] then [] else KindsOf(hs[..|hs| - 1]) + [hs[|hs| - 1].kind]
  }

  ghost function Registered(hs: seq<Handler>): map<string, Handler> {
    if hs == [] then map[] else Registered(hs[..|hs| - 1])[hs[|hs| - 1].kind := hs[|hs| - 1]]
  }

  /** h is the last handler given for its kind. */
  ghost predicate LastOfItsKind(hs: seq<Handler>, h: Handler) {
    exists i :: 0 <= i < |hs| && hs[i] == h && forall j :: i < j < |hs| ==> hs[j].kind != h.kind
  }

  /** A kind is registered when some handler has it, and then with the last such handler. */
  lemma {:induction false} LaterHandlerReplaces(hs: seq<Handler>)
    ensures forall k :: k in Registered(hs) <==> k in KindsOf(hs)
    ensures forall k :: k in Registered(hs) ==> Registered(hs)[k].kind == k && LastOfItsKind(hs, Registered(hs)[k])
  {
    if hs != [] {
      var front, last := hs[..|hs| - 1], hs[|hs| - 1];
      LaterHandlerReplaces(front);
      assert Registered(hs) == Registered(front)[last.kind := last] && KindsOf(hs) == KindsOf(front) + [last.kind];
      assert hs == front + [last];
      LastStaysLast(front, last);
    }
  }

  lemma LastStaysLast(front: seq<Handler>, last: Handler)
    ensures LastOfItsKind(front + [last], last)
    ensures forall h :: LastOfItsKind(front, h) && h.kind != last.kind ==> LastOfItsKind(front + [last], h)
  {
    var hs := front + [last];
    assert hs[|front|] == last;
    forall h | LastOfItsKind(front, h) && h.kind != last.kind ensures LastOfItsKind(hs, h) {
      var i :| 0 <= i < |front| && front[i] == h && forall j :: i < j < |front| ==> front[j].kind != h.kind;
      assert hs[i] == h;
    }
  }

  lemma RegisterNext(hs: seq<Handler>, i: nat)
    requires i < |hs|
    ensures Registered(hs[..i + 1]) == Registered(hs[..i])[hs[i].kind := hs[i]]
    ensures Distinct(KindsOf(hs[..i + 1])) ==
            Distinct(KindsOf(hs[..i])) + if hs[i].kind in Registered(hs[..i]) then [] else [hs[i].kind]
  {
    var kinds := KindsOf(hs[..i]);
    assert hs[..i + 1][..i] == hs[..i];
    assert KindsOf(hs[..i + 1]) == kinds + [hs[i].kind];
    assert (kinds + [hs[i].kind])[..|kinds|] == kinds;
    LaterHandlerReplaces(hs[..i]);
    DistinctKeepsMembers(kinds);
  }

  class Registry {
    var byKind: map<string, Handler>
    var order: seq<string>

    /** Kinds in the order of their first registration, each with its last handler. */
    constructor (handlers: seq<Handler>)
      ensures order == Distinct(KindsOf(handlers))
      ensures byKind == Registered(handlers)
    {
      byKind := map[];
      order := [];
      new;
      for i := 0 to |handlers|
        invariant order == Distinct(KindsOf(handlers[..i]))
        invariant byKind == Registered(handlers[..i])
      {
        var h := handlers[i];
        RegisterNext(handlers, i);
        if h.kind !in byKind { order := order + [h.kind]; }
        byKind := byKind[h.kind := h];
      }
      assert handlers[..|handlers|] == handlers;
    }

    function Get(kind: string): Option<Handler>
      reads this
    {
      if kind in byKind then Some(byKind[kind]) else None
    }
  }

  const DEFAULT_HANDLERS: seq<Handler> := [
    Handler(DEPLOYMENT, ReplicaShape), Handler(STATEFUL_SET, ReplicaShape), Handler(DAEMON_SET, SelectorShape),
    Handler(CRON_JOB, SuspendShape), Handler(JOB, SuspendShape), Handler(HPA, BoundsShape)]

  /** The default registry: exactly the kinds the handlers are written for. */
  method Default() returns (r: Registry)
    ensures fresh(r)
    ensures forall k :: k in r.byKind <==> ShapeOfKind(k).Some?
    ensures r.order == [DEPLOYMENT, STATEFUL_SET, DAEMON_SET, CRON_JOB, JOB, HPA]
  {
    r := new Registry(DEFAULT_HANDLERS);
    LaterHandlerReplaces(DEFAULT_HANDLERS);
    DefaultKinds();
    KindsAreDistinct();
    DistinctOfDistinct([DEPLOYMENT, STATEFUL_SET, DAEMON_SET, CRON_JOB, JOB, HPA]);
  }

  lemma DefaultKinds()
    ensures KindsOf(DEFAULT_HANDLERS) == [DEPLOYMENT, STATEFUL_SET, DAEMON_SET, CRON_JOB, JOB, HPA]
  {
    var hs := DEFAULT_HANDLERS;
    assert hs[..5][..4] == hs[..4] && hs[..4][..3] == hs[..3] && hs[..3][..2] == hs[..2] && hs[..2][..1] == hs[..1];
    assert KindsOf(hs[..1]) == [DEPLOYMENT];
    assert KindsOf(hs[..2]) == [DEPLOYMENT, STATEFUL_SET];
    assert KindsOf(hs[..3]) == [DEPLOYMENT, STATEFUL_SET, DAEMON_SET];
    assert KindsOf(hs[..4]) == [DEPLOYMENT, STATEFUL_SET, DAEMON_SET, CRON_JOB];
    assert KindsOf(hs[..5]) == [DEPLOYMENT, STATEFUL_SET, DAEMON_SET, CRON_JOB, JOB];
  }

  lemma KindsAreDistinct()
    ensures var ks := [DEPLOYMENT, STATEFUL_SET, DAEMON_SET, CRON_JOB, JOB, HPA];
            forall i, j :: 0 <= i < j < |ks| ==> ks[i] != ks[j]
  {}

  lemma {:induction false} DistinctOfDistinct(ks: seq<string>)
    requires forall i, j :: 0 <= i < j < |ks| ==> ks[i] != ks[j]
    ensures Distinct(ks) == ks
  {
    if ks != [] {
      var front := ks[..|ks| - 1];
      DistinctOfDistinct(front);
      assert ks == front + [ks[|ks| - 1]];
    }
  }

  // ---------- exclusion ----------

  function ExKey(kind: string, namespace: string, name: string): string { kind + "/" + (namespace + "/" + name) }

  predicate SlashFree(ref: Ref) { '/' !in ref.kind && '/' !in ref.namespace && '/' !in ref.name }

  /** What an excludeRef means: its kind and name, in its namespace or in any. */
  predicate Matches(x: ResourceRef, ref: Ref) {
    x.kind == ref.kind && x.name == ref.name && (x.namespace == "" || x.namespace == ref.namespace)
  }

  ghost predicate Excluded(xs: seq<ResourceRef>, ref: Ref) { exists x :: x in xs && Matches(x, ref) }

  method ExcludeSet(xs: seq<ResourceRef>) returns (keys: set<string>)
    ensures forall k :: k in keys <==> exists x :: x in xs && k == ExKey(x.kind, x.namespace, x.name)
  {
    keys := {};
    for i := 0 to |xs|
      invariant forall k :: k in keys <==> exists x :: x in xs[..i] && k == ExKey(x.kind, x.namespace, x.name)
    {
      assert forall x :: x in xs[..i + 1] <==> x in xs[..i] || x == xs[i];
      keys := keys + {ExKey(xs[i].kind, xs[i].namespace, xs[i].name)};
    }
    assert xs[..|xs|] == xs;
  }

  function IsExcluded(keys: set<string>, ref: Ref): bool {
    ExKey(ref.kind, "", ref.name) in keys || ExKey(ref.kind, ref.namespace, ref.name) in keys
  }

  /** A key of slash-free parts is not the key of any other parts, whatever strings those hold. */
  lemma ExKeyUnambiguous(kind: string, ns: string, name: string, kind': string, ns': string, name': string)
    requires '/' !in kind && '/' !in ns && '/' !in name
    requires ExKey(kind, ns, name) == ExKey(kind', ns', name')
    ensures kind == kind' && ns == ns' && name == name'
  {
    SlashCount(kind, ns, name);
    SlashCount(kind', ns', name');
    Lexical.CountZero('/', kind);
    Lexical.CountZero('/', ns);
    Lexical.CountZero('/', name);
    Lexical.CountZero('/', kind');
    Lexical.CountZero('/', ns');
    Lexical.CountZero('/', name');
    Lexical.SplitUnique('/', kind, ns + "/" + name, kind', ns' + "/" + name');
    Lexical.SplitUnique('/', ns, name, ns', name');
  }

  lemma SlashCount(kind: string, ns: string, name: string)
    ensures Lexical.Count('/', ExKey(kind, ns, name)) ==
            Lexical.Count('/', kind) + Lexical.Count('/', ns) + Lexical.Count('/', name) + 2
  {
    Lexical.CountConcat('/', kind + "/", ns + "/" + name);
    Lexical.CountConcat('/', kind, "/");
    Lexical.CountConcat('/', ns + "/", name);
    Lexical.CountConcat('/', ns, "/");
    assert kind + "/" + (ns + "/" + name) == ExKey(kind, ns, name);
  }

  /** The two key lookups decide exactly the meant exclusion. */
  lemma ExclusionIsExact(xs: seq<ResourceRef>, keys: set<string>, ref: Ref)
    requires SlashFree(ref)
    requires forall k :: k in keys <==> exists x :: x in xs && k == ExKey(x.kind, x.namespace, x.name)
    ensures IsExcluded(keys, ref) <==> Excluded(xs, ref)
  {
    if ExKey(ref.kind, "", ref.name) in keys {
      var x :| x in xs && ExKey(ref.kind, "", ref.name) == ExKey(x.kind, x.namespace, x.name);
      ExKeyUnambiguous(ref.kind, "", ref.name, x.kind, x.namespace, x.name);
      assert Matches(x, ref);
    }
    if ExKey(ref.kind, ref.namespace, ref.name) in keys {
      var x :| x in xs && ExKey(ref.kind, ref.namespace, ref.name) == ExKey(x.kind, x.namespace, x.name);
      ExKeyUnambiguous(ref.kind, ref.namespace, ref.name, x.kind, x.namespace, x.name);
      assert Matches(x, ref);
    }
    if Excluded(xs, ref) {
      var x :| x in xs && Matches(x, ref);
      assert ExKey(x.kind, x.namespace, x.name) in keys;
    }
  }

  // ---------- listing ----------

  /** A workload as the API server lists it. */
  datatype Listed = Listed(ref: Ref, labels: map<string, string>)

  /** In and NotIn need values, Exists and DoesNotExist take none; there is no other operator. */
  predicate WellFormed(r: Requirement) {
    if r.operator == "In" || r.operator == "NotIn" then r.values != []
    else (r.operator == "Exists" || r.operator == "DoesNotExist") && r.values == []
  }

  /** A label that is absent satisfies NotIn. */
  predicate Satisfies(r: Requirement, labels: map<string, string>) {
    if r.operator == "In" then r.key in labels && labels[r.key] in r.values
    else if r.operator == "NotIn" then r.key in labels ==> labels[r.key] !in r.values
    else if r.operator == "Exists" then r.key in labels
    else r.key !in labels
  }

  /** metav1.LabelSelectorAsSelector returns no error; no selector at all selects nothing. */
  predicate Converts(selector: Option<LabelSelector>) {
    selector.Some? ==> selector.value.Terms? && forall r :: r in selector.value.expressions ==> WellFormed(r)
  }

  predicate Selects(selector: Option<LabelSelector>, labels: map<string, string>) {
    && selector.Some? && selector.value.Terms?
    && (forall k :: k in selector.value.labels ==> k in labels && labels[k] == selector.value.labels[k])
    && (forall r :: r in selector.value.expressions ==> Satisfies(r, labels))
  }

  // ---------- label selectors in the user's terms ----------

  /** No selector selects nothing, the empty one everything. */
  lemma EmptySelector(ls: map<string, string>)
    ensures !Selects(None, ls) && Selects(Some(Terms(map[], [])), ls)
    ensures Converts(None) && Converts(Some(Terms(map[], [])))
  {}

  /** Each matchLabels entry demands its label with its value. */
  lemma LabelIsDemanded(m: map<string, string>, es: seq<Requirement>, k: string, v: string, ls: map<string, string>)
    requires k !in m
    ensures Selects(Some(Terms(m[k := v], es)), ls) <==> k in ls && ls[k] == v && Selects(Some(Terms(m, es)), ls)
    ensures Converts(Some(Terms(m[k := v], es))) <==> Converts(Some(Terms(m, es)))
  {
    assert m[k := v].Keys == m.Keys + {k};
    if Selects(Some(Terms(m[k := v], es)), ls) {
      assert k in m[k := v];
      forall j | j in m ensures j in ls && ls[j] == m[j] { assert j in m[k := v]; }
    }
  }

  /** Each expression adds its demand. */
  lemma ExpressionIsDemanded(m: map<string, string>, es: seq<Requirement>, e: Requirement, ls: map<string, string>)
    ensures Selects(Some(Terms(m, es + [e])), ls) <==> Selects(Some(Terms(m, es)), ls) && Satisfies(e, ls)
    ensures Converts(Some(Terms(m, es + [e]))) <==> Converts(Some(Terms(m, es))) && WellFormed(e)
  {
    assert forall r :: r in es + [e] <==> r in es || r == e;
  }

  /** What the four operators mean: In is one of its values, NotIn and DoesNotExist negate In and
      Exists, and a matchLabels entry is In with one value. */
  lemma OperatorsMean(k: string, vs: seq<string>, v: string, ls: map<string, string>)
    ensures Satisfies(Requirement(k, "Exists", []), ls) <==> k in ls
    ensures Satisfies(Requirement(k, "DoesNotExist", []), ls) <==> !Satisfies(Requirement(k, "Exists", []), ls)
    ensures Satisfies(Requirement(k, "NotIn", vs), ls) <==> !Satisfies(Requirement(k, "In", vs), ls)
    ensures Satisfies(Requirement(k, "In", vs), ls) <==> exists i :: 0 <= i < |vs| && Satisfies(Requirement(k, "In", [vs[i]]), ls)
    ensures Satisfies(Requirement(k, "In", [v]), ls) <==> Selects(Some(Terms(map[k := v], [])), ls)
    ensures Satisfies(Requirement(k, "In", [v]), map[k := v])
  {
    LabelIsDemanded(map[], [], k, v, ls);
    assert map[][k := v] == map[k := v];
    EmptySelector(ls);
    var here := Requirement(k, "In", vs);
    if Satisfies(here, ls) {
      var i :| 0 <= i < |vs| && vs[i] == ls[k];
      assert Satisfies(Requirement(k, "In", [vs[i]]), ls);
    }
  }

  /** In and NotIn need values, Exists and DoesNotExist take none, and nothing else converts. */
  lemma OperatorsConvert(k: string, op: string, vs: seq<string>)
    ensures WellFormed(Requirement(k, op, vs)) <==>
            || (op in {"In", "NotIn"} && |vs| > 0)
            || (op in {"Exists", "DoesNotExist"} && |vs| == 0)
  {}

  /** The workload is in the target; the empty namespace means all of them. */
  predicate InTarget(t: Target, l: Listed) {
    if t.mode == "namespaces" then "" in t.namespaces || l.ref.namespace in t.namespaces
    else t.mode == "labels" && Selects(t.selector, l.labels)
  }

  /** Listing succeeds: a known mode and a selector that converts. */
  predicate Listable(t: Target) {
    t.mode == "namespaces" || (t.mode == "labels" && Converts(t.selector))
  }

  ghost predicate Found(cluster: seq<Listed>, kind: string, t: Target, ref: Ref) {
    ref.kind == kind && exists l :: l in cluster && l.ref == ref && InTarget(t, l)
  }

  /** handler.List in one namespace, or by label selector. It fails exactly for a target that
      cannot be listed and when a List call does. */
  method ListKind(c: Client, cluster: seq<Listed>, kind: string, t: Target) returns (r: Result<seq<Ref>>)
    modifies c`faults
    ensures c.faults >= old(c.faults) && (r.Err? <==> !Listable(t) || c.faults > old(c.faults))
    ensures r.Ok? ==> forall ref :: ref in r.value <==> Found(cluster, kind, t, ref)
    ensures r.Ok? && t.mode == "labels" && t.selector.Some? ==> forall ref :: ref in r.value <==>
              && ref.kind == kind
              && exists l :: l in cluster && l.ref == ref
                             && (forall k :: k in t.selector.value.labels ==> k in l.labels && l.labels[k] == t.selector.value.labels[k])
                             && (forall e :: e in t.selector.value.expressions ==> Satisfies(e, l.labels))
  {
    if t.mode == "namespaces" {
      var refs: seq<Ref> := [];
      for i := 0 to |t.namespaces|
        invariant c.faults == old(c.faults)
        invariant forall ref :: ref in refs <==>
                                && ref.kind == kind
                                && exists l :: l in cluster && l.ref == ref
                                               && ("" in t.namespaces[..i] || ref.namespace in t.namespaces[..i])
      {
        assert forall ns :: ns in t.namespaces[..i + 1] <==> ns in t.namespaces[..i] || ns == t.namespaces[i];
        var ok, part := ListNamespace(c, cluster, kind, t.namespaces[i]);
        if !ok { return Err; }
        refs := refs + part;
      }
      assert t.namespaces[..|t.namespaces|] == t.namespaces;
      return Ok(refs);
    } else if t.mode == "labels" {
      if !Converts(t.selector) { return Err; }
      var ok, refs := ListLabels(c, cluster, kind, t.selector);
      if !ok { return Err; }
      return Ok(refs);
    }
    return Err;
  }

  /** One List call; it may fail. */
  method ListNamespace(c: Client, cluster: seq<Listed>, kind: string, ns: string) returns (ok: bool, refs: seq<Ref>)
    modifies c`faults
    ensures c.faults == old(c.faults) + if ok then 0 else 1
    ensures ok ==> forall ref :: ref in refs <==>
                     ref.kind == kind && (ns == "" || ref.namespace == ns) && exists l :: l in cluster && l.ref == ref
  {
    ok := c.GetsThrough();
    refs := [];
    for i := 0 to |cluster|
      invariant forall ref :: ref in refs <==>
                              && ref.kind == kind && (ns == "" || ref.namespace == ns)
                              && exists l :: l in cluster[..i] && l.ref == ref
    {
      assert forall l :: l in cluster[..i + 1] <==> l in cluster[..i] || l == cluster[i];
      if cluster[i].ref.kind == kind && (ns == "" || cluster[i].ref.namespace == ns) {
        refs := refs + [cluster[i].ref];
      }
    }
    assert cluster[..|cluster|] == cluster;
  }

  method ListLabels(c: Client, cluster: seq<Listed>, kind: string, selector: Option<LabelSelector>) returns (ok: bool, refs: seq<Ref>)
    modifies c`faults
    ensures c.faults == old(c.faults) + if ok then 0 else 1
    ensures ok ==> forall ref :: ref in refs <==>
                     ref.kind == kind && exists l :: l in cluster && l.ref == ref && Selects(selector, l.labels)
  {
    ok := c.GetsThrough();
    refs := [];
    for i := 0 to |cluster|
      invariant forall ref :: ref in refs <==>
                              ref.kind == kind && exists l :: l in cluster[..i] && l.ref == ref && Selects(selector, l.labels)
    {
      assert forall l :: l in cluster[..i + 1] <==> l in cluster[..i] || l == cluster[i];
      if cluster[i].ref.kind == kind && Selects(selector, cluster[i].labels) {
        refs := refs + [cluster[i].ref];
      }
    }
    assert cluster[..|cluster|] == cluster;
  }

  // ---------- order ----------

  /** By kind, then namespace, then name. */
  predicate Before(a: Ref, b: Ref) {
    if a.kind != b.kind then Lexical.Less(a.kind, b.kind)
    else if a.namespace != b.namespace then Lexical.Less(a.namespace, b.namespace)
    else Lexical.Less(a.name, b.name)
  }

  lemma BeforeTotal(a: Ref, b: Ref)
    ensures a == b || Before(a, b) || Before(b, a)
  {
    Lexical.Total(a.kind, b.kind);
    Lexical.Total(a.namespace, b.namespace);
    Lexical.Total(a.name, b.name);
  }

  lemma BeforeTransitive(a: Ref, b: Ref, c: Ref)
    requires Before(a, b) && Before(b, c)
    ensures Before(a, c)
  {
    if a.kind != b.kind && b.kind != c.kind {
      Lexical.Chain(a.kind, b.kind, c.kind);
    } else if a.kind == b.kind && b.kind == c.kind {
      if a.namespace != b.namespace && b.namespace != c.namespace {
        Lexical.Chain(a.namespace, b.namespace, c.namespace);
      } else if a.namespace == b.namespace && b.namespace == c.namespace {
        Lexical.Chain(a.name, b.name, c.name);
      }
    }
  }

  ghost predicate Ordered(refs: seq<Ref>) {
    forall i, j :: 0 <= i < j < |refs| ==> refs[i] == refs[j] || Before(refs[i], refs[j])
  }

  /** Kinds come in order; of one kind namespaces do, and of one namespace names do. */
  lemma OrderedMeans(refs: seq<Ref>)
    ensures Ordered(refs) <==> forall i, j :: 0 <= i < j < |refs| ==>
              && Lexical.AtMost(refs[i].kind, refs[j].kind)
              && (refs[i].kind == refs[j].kind ==> Lexical.AtMost(refs[i].namespace, refs[j].namespace))
              && (refs[i].kind == refs[j].kind && refs[i].namespace == refs[j].namespace ==>
                    Lexical.AtMost(refs[i].name, refs[j].name))
  {
    forall i, j | 0 <= i < j < |refs| ensures refs[i] == refs[j] || Before(refs[i], refs[j]) <==>
              && Lexical.AtMost(refs[i].kind, refs[j].kind)
              && (refs[i].kind == refs[j].kind ==> Lexical.AtMost(refs[i].namespace, refs[j].namespace))
              && (refs[i].kind == refs[j].kind && refs[i].namespace == refs[j].namespace ==>
                    Lexical.AtMost(refs[i].name, refs[j].name))
    {
      LexicalTriple(refs[i], refs[j]);
    }
  }

  lemma LexicalTriple(a: Ref, b: Ref)
    ensures a == b || Before(a, b) <==>
              && Lexical.AtMost(a.kind, b.kind)
              && (a.kind == b.kind ==> Lexical.AtMost(a.namespace, b.namespace))
              && (a.kind == b.kind && a.namespace == b.namespace ==> Lexical.AtMost(a.name, b.name))
  {
    Lexical.Total(a.kind, b.kind);
    Lexical.Total(a.namespace, b.namespace);
    Lexical.Total(a.name, b.name);
  }

  /** sort.Slice with the comparison above: some ordered rearrangement. */
  method Sort(refs: seq<Ref>) returns (sorted: seq<Ref>)
    ensures Ordered(sorted) && multiset(sorted) == multiset(refs)
  {
    sorted := [];
    for i := 0 to |refs|
      invariant Ordered(sorted) && multiset(sorted) == multiset(refs[..i])
    {
      assert refs[..i + 1] == refs[..i] + [refs[i]];
      sorted := Insert(sorted, refs[i]);
    }
    assert refs[..|refs|] == refs;
  }

  method Insert(sorted: seq<Ref>, ref: Ref) returns (out: seq<Ref>)
    requires Ordered(sorted)
    ensures Ordered(out) && multiset(out) == multiset(sorted) + multiset{ref}
  {
    var i := 0;
    while i < |sorted| && Before(sorted[i], ref)
      invariant 0 <= i <= |sorted|
      invariant forall j :: 0 <= j < i ==> Before(sorted[j], ref)
    {
      i := i + 1;
    }
    out := sorted[..i] + [ref] + sorted[i..];
    assert sorted == sorted[..i] + sorted[i..];
    InsertedIsOrdered(sorted[..i], ref, sorted[i..]);
  }

  lemma InsertedIsOrdered(low: seq<Ref>, ref: Ref, high: seq<Ref>)
    requires Ordered(low + high)
    requires forall j :: 0 <= j < |low| ==> Before(low[j], ref)
    requires high != [] ==> !Before(high[0], ref)
    ensures Ordered(low + [ref] + high)
  {
    var all := low + high;
    forall j | 0 <= j < |high| ensures high[j] == ref || Before(ref, high[j]) {
      assert high[0] == all[|low|] && high[j] == all[|low| + j];
      BehindInserted(ref, high[0], high[j]);
    }
    var out := low + [ref] + high;
    forall i, j | 0 <= i < j < |out| ensures out[i] == out[j] || Before(out[i], out[j]) {
      if i != |low| && j != |low| {
        var p, q := if i < |low| then i else i - 1, if j < |low| then j else j - 1;
        assert out[i] == all[p] && out[j] == all[q];
      }
    }
  }

  lemma BehindInserted(ref: Ref, first: Ref, other: Ref)
    requires !Before(first, ref) && (first == other || Before(first, other))
    ensures other == ref || Before(ref, other)
  {
    BeforeTotal(ref, first);
    if ref != first && first != other { BeforeTransitive(ref, first, other); }
  }

  // ---------- resolve.go ----------

  /** Requested kinds without repetition; none requested means every registered one. */
  method RequestedKinds(requested: seq<string>, reg: Registry) returns (kinds: seq<string>)
    ensures kinds == if requested == [] then reg.order else Distinct(requested)
  {
    if requested == [] { return reg.order; }
    var seen: set<string> := {};
    kinds := [];
    for i := 0 to |requested|
      invariant kinds == Distinct(requested[..i])
      invariant forall k :: k in seen <==> k in kinds
    {
      assert requested[..i + 1][..i] == requested[..i];
      if requested[i] !in seen {
        seen := seen + {requested[i]};
        kinds := kinds + [requested[i]];
      }
    }
    assert requested[..|requested|] == requested;
  }

  ghost predicate Requested(spec: SleepScheduleSpec, kind: string) { spec.kinds == [] || kind in spec.kinds }

  /** The workloads a schedule is meant to act on. */
  ghost predicate Selected(cluster: seq<Listed>, spec: SleepScheduleSpec, ref: Ref) {
    && ShapeOfKind(ref.kind).Some? && Requested(spec, ref.kind)
    && Found(cluster, ref.kind, spec.target, ref)
    && !Excluded(spec.excludeRefs, ref)
  }

  ghost predicate SlashFreeCluster(cluster: seq<Listed>) { forall l :: l in cluster ==> SlashFree(l.ref) }

  /** Resolve with the default registry: the targets in order, and the requested kinds
      nobody handles. It fails for a target that cannot be listed and when a
      List call does. */
  method Resolve(c: Client, cluster: seq<Listed>, spec: SleepScheduleSpec, reg: Registry)
    returns (r: Result<(seq<Ref>, seq<string>)>)
    requires forall k :: k in reg.byKind <==> ShapeOfKind(k).Some?
    requires forall k :: k in reg.order <==> k in reg.byKind
    modifies c`faults
    ensures c.faults >= old(c.faults)
    ensures r.Err? <==> c.faults > old(c.faults) || (!Listable(spec.target) && exists k :: Requested(spec, k) && ShapeOfKind(k).Some?)
    ensures r.Ok? ==> Ordered(r.value.0)
    ensures r.Ok? && SlashFreeCluster(cluster) ==> forall ref :: ref in r.value.0 <==> Selected(cluster, spec, ref)
    ensures r.Ok? ==> forall ref :: ref in r.value.0 ==> ShapeOfKind(ref.kind).Some?
    ensures r.Ok? ==> forall k :: k in r.value.1 <==> k in spec.kinds && ShapeOfKind(k).None?
  {
    var excluded := ExcludeSet(spec.excludeRefs);
    var kinds := RequestedKinds(spec.kinds, reg);
    DistinctKeepsMembers(spec.kinds);
    var refs: seq<Ref>, unhandled: seq<string> := [], [];
    for i := 0 to |kinds|
      invariant forall ref :: ref in refs <==>
                              && ref.kind in kinds[..i] && ref.kind in reg.byKind
                              && Found(cluster, ref.kind, spec.target, ref) && !IsExcluded(excluded, ref)
      invariant forall k :: k in unhandled <==> k in kinds[..i] && k !in reg.byKind
      invariant c.faults == old(c.faults) && (!Listable(spec.target) ==> forall k :: k in kinds[..i] ==> k !in reg.byKind)
    {
      assert forall k :: k in kinds[..i + 1] <==> k in kinds[..i] || k == kinds[i];
      if kinds[i] !in reg.byKind {
        unhandled := unhandled + [kinds[i]];
      } else {
        var found := ListKind(c, cluster, kinds[i], spec.target);
        if found.Err? {
          assert Requested(spec, kinds[i]);
          return Err;
        }
        var kept := DropExcluded(found.value, excluded);
        refs := refs + kept;
      }
    }
    assert kinds[..|kinds|] == kinds;
    var sorted := Sort(refs);
    SortKeepsMembers(refs, sorted);
    if SlashFreeCluster(cluster) {
      forall ref ensures ref in refs <==> Selected(cluster, spec, ref) {
        if SlashFree(ref) { ExclusionIsExact(spec.excludeRefs, excluded, ref); }
      }
    }
    return Ok((sorted, unhandled));
  }

  method DropExcluded(found: seq<Ref>, excluded: set<string>) returns (kept: seq<Ref>)
    ensures forall ref :: ref in kept <==> ref in found && !IsExcluded(excluded, ref)
  {
    kept := [];
    for i := 0 to |found|
      invariant forall ref :: ref in kept <==> ref in found[..i] && !IsExcluded(excluded, ref)
    {
      assert forall ref :: ref in found[..i + 1] <==> ref in found[..i] || ref == found[i];
      if !IsExcluded(excluded, found[i]) { kept := kept + [found[i]]; }
    }
    assert found[..|found|] == found;
  }

  lemma SortKeepsMembers(a: seq<Ref>, b: seq<Ref>)
    requires multiset(a) == multiset(b)
    ensures forall ref :: ref in a <==> ref in b
  {
    assert forall ref :: ref in a <==> ref in multiset(a);
    assert forall ref :: ref in b <==> ref in multiset(b);
  }
}
