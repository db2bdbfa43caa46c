/** What a checkpoint entry holds: the key of a workload and the text of its saved field. */
module Checkpoint {
  import opened Wrappers
  import opened Api
  import opened Decimal
  import Lexical

  /** The one field a kind sleeps by. An unset and an empty nodeSelector are the same map. */
  datatype Field =
    | Replicas(count: Option<Int32>)
    | NodeSelector(labels: map<string, string>)
    | Suspend(flag: Option<bool>)
    | Bounds(min: Option<Int32>, max: Int32)

  /** replicasOf: an unset spec.replicas counts as 1. Other fields stand for themselves. */
  function Effective(f: Field): Field {
    if f == Replicas(None) then Replicas(Some(1)) else f
  }

  // ---------- keys ----------

  /** Key of internal/checkpoint/store.go. */
  function Key(kind: string, namespace: string, name: string, uid: string): string {
    "apps_v1_" + (kind + "_" + (namespace + "_" + (name + "_" + uid)))
  }

  /** No Kubernetes kind, namespace, name or UID contains an underscore. */
  predicate Plain(s: string) { '_' !in s }

  /** Distinct workloads, and distinct incarnations of one workload, have distinct keys. */
  lemma KeyInjective(kind: string, ns: string, name: string, uid: string, kind': string, ns': string, name': string, uid': string)
    requires Plain(kind) && Plain(ns) && Plain(name) && Plain(kind') && Plain(ns') && Plain(name')
    requires Key(kind, ns, name, uid) == Key(kind', ns', name', uid')
    ensures kind == kind' && ns == ns' && name == name' && uid == uid'
  {
    var a, a' := name + "_" + uid, name' + "_" + uid';
    var b, b' := ns + "_" + a, ns' + "_" + a';
    var c, c' := kind + "_" + b, kind' + "_" + b';
    assert ("apps_v1_" + c)[8..] == c && ("apps_v1_" + c')[8..] == c';
    Lexical.SplitUnique('_', kind, b, kind', b');
    Lexical.SplitUnique('_', ns, a, ns', a');
    Lexical.SplitUnique('_', name, uid, name', uid');
  }

  // ---------- saved values ----------

  /** Label keys and values never contain a quote. */
  predicate Quotable(s: string) { '"' !in s }

  predicate Storable(f: Field) {
    f.NodeSelector? ==> forall k :: k in f.labels ==> Quotable(k) && Quotable(f.labels[k])
  }

  function Encode(f: Field): string {
    match Effective(f)
    case Replicas(count) => FormatInt(if count.Some? then count.value else 1)
    case Suspend(None) => "null"
    case Suspend(Some(b)) => if b then "true" else "false"
    case Bounds(min, max) => BoundsText(min, max)
    case NodeSelector(labels) =>
      if labels == map[] then "null" else SelectorText(labels)
  }

  /** Which of the four forms a kind's checkpoint is read in. */
  datatype Shape = ReplicaShape | SelectorShape | SuspendShape | BoundsShape

  function ShapeOf(f: Field): Shape {
    match f
    case Replicas(_) => ReplicaShape
    case NodeSelector(_) => SelectorShape
    case Suspend(_) => SuspendShape
    case Bounds(_, _) => BoundsShape
  }

  /** None is the corrupt-checkpoint error of the handlers. */
  function Decode(shape: Shape, raw: string): (r: Option<Field>)
    ensures r.Some? ==> ShapeOf(r.value) == shape && Storable(r.value)
  {
    match shape
    case ReplicaShape =>
      (match ParseInt32(raw)
       case Some(n) => Some(Replicas(Some(n)))
       case None => None)
    case SuspendShape =>
      if raw == "null" then Some(Suspend(None))
      else if raw == "true" then Some(Suspend(Some(true)))
      else if raw == "false" then Some(Suspend(Some(false)))
      else None
    case BoundsShape => ParseBounds(raw)
    case SelectorShape => ParseSelector(raw)
  }

  /** Index of the first c, or |s|. */
  function IndexOf(c: char, s: string): (n: nat)
    ensures n <= |s| && c !in s[..n] && (n < |s| ==> s[n] == c)
  {
    if s == [] || s[0] == c then 0
    else
      var n := 1 + IndexOf(c, s[1..]);
      assert s[..n] == [s[0]] + s[1..][..n - 1];
      n
  }

  lemma IndexOfFirst(c: char, before: string, after: string)
    requires c !in before
    ensures IndexOf(c, before + [c] + after) == |before|
  {
    var s := before + [c] + after;
    var n := IndexOf(c, s);
    assert s[|before|] == c;
    assert forall i :: 0 <= i < |before| ==> s[i] == before[i];
    assert forall i :: 0 <= i < n ==> s[..n][i] == s[i];
  }

  // ---------- {"min":m,"max":n} ----------

  function MaxText(max: Int32): string { "\"max\":" + FormatInt(max) + "}" }

  /** The min member is omitted when unset. */
  function BoundsText(min: Option<Int32>, max: Int32): string {
    match min
    case None => "{" + MaxText(max)
    case Some(m) => "{\"min\":" + FormatInt(m) + "," + MaxText(max)
  }

  function ParseMax(s: string): Option<Int32> {
    if |s| > 7 && s[..7] == "\"max\":" + s[6..7] && s[|s| - 1] == '}' then ParseInt32(s[6..|s| - 1]) else None
  }

  function ParseBounds(raw: string): (r: Option<Field>)
    ensures r.Some? ==> r.value.Bounds?
  {
    if |raw| > 7 && raw[..7] == "{\"min\":" then
      var comma := IndexOf(',', raw[7..]);
      if comma == |raw[7..]| then None
      else
        match (ParseInt32(raw[7..][..comma]), ParseMax(raw[7..][comma + 1..]))
        case (Some(min), Some(max)) => Some(Bounds(Some(min), max))
        case _ => None
    else if raw != [] && raw[0] == '{' then
      match ParseMax(raw[1..])
      case Some(max) => Some(Bounds(None, max))
      case None => None
    else None
  }

  lemma ParseMaxReads(n: Int32)
    ensures ParseMax(MaxText(n)) == Some(n)
  {
    var s := MaxText(n);
    assert s[6..|s| - 1] == FormatInt(n);
    assert s[..7] == "\"max\":" + s[6..7];
    ParseFormatInt(n);
  }

  lemma NoCommaInInt(n: int)
    ensures ',' !in FormatInt(n)
  {}

  lemma BoundsRoundTrip(min: Option<Int32>, max: Int32)
    ensures ParseBounds(BoundsText(min, max)) == Some(Bounds(min, max))
  {
    ParseMaxReads(max);
    if min.Some? {
      NoCommaInInt(min.value);
      ParseFormatInt(min.value);
      ParseMinMax(FormatInt(min.value), MaxText(max), min.value, max);
    } else {
      ParseMaxOnly(MaxText(max), max);
    }
  }

  lemma ParseMinMax(m: string, tail: string, min: Int32, max: Int32)
    requires ',' !in m && ParseInt32(m) == Some(min) && ParseMax(tail) == Some(max)
    ensures ParseBounds("{\"min\":" + m + "," + tail) == Some(Bounds(Some(min), max))
  {
    var raw := "{\"min\":" + m + "," + tail;
    assert raw[..7] == "{\"min\":";
    assert raw[7..] == m + [','] + tail;
    SplitAtComma(raw[7..], m, tail);
  }

  lemma SplitAtComma(s: string, m: string, tail: string)
    requires ',' !in m && s == m + [','] + tail
    ensures IndexOf(',', s) == |m| && |m| < |s| && s[..|m|] == m && s[|m| + 1..] == tail
  {
    IndexOfFirst(',', m, tail);
  }

  lemma ParseMaxOnly(tail: string, max: Int32)
    requires ParseMax(tail) == Some(max)
    ensures ParseBounds("{" + tail) == Some(Bounds(None, max))
  {
    var raw := "{" + tail;
    assert raw[1..] == tail;
    assert tail[1] == tail[..7][1] && raw[2] == tail[1];
    assert "{\"min\":"[3] == 'i';
    assert tail[2] == tail[..7][2] && raw[3] == tail[2];
    assert raw[..7][3] == raw[3];
  }

  // ---------- {"key":"value",...} with sorted keys ----------

  function Quote(s: string): string { "\"" + s + "\"" }

  function Member(k: string, v: string): string { Quote(k) + ":" + Quote(v) }

  function Members(m: map<string, string>, ks: seq<string>): string
    requires ks != [] && forall k :: k in ks ==> k in m
    decreases |ks|, 0
  {
    Member(ks[0], m[ks[0]]) + Tail(m, ks)
  }

  /** What follows the first member. */
  function Tail(m: map<string, string>, ks: seq<string>): string
    requires ks != [] && forall k :: k in ks ==> k in m
    decreases |ks| - 1, 1
  {
    if |ks| == 1 then "}" else "," + Members(m, ks[1..])
  }

  lemma LeastExists(s: set<string>)
    requires s != {}
    ensures exists k :: k in s && forall j :: j in s ==> Lexical.AtMost(k, j)
  {
    var x :| x in s;
    if s == {x} {
      assert forall j :: j in s ==> Lexical.AtMost(x, j);
    } else {
      LeastExists(s - {x});
      var k :| k in s - {x} && forall j :: j in s - {x} ==> Lexical.AtMost(k, j);
      Lexical.Total(x, k);
      var least := if Lexical.AtMost(x, k) then x else k;
      forall j | j in s ensures Lexical.AtMost(least, j) {
        if j != x {
          assert j in s - {x};
          Lexical.AtMostTransitive(least, k, j);
        }
      }
    }
  }

  function Least(s: set<string>): (k: string)
    requires s != {}
    ensures k in s && forall j :: j in s ==> Lexical.AtMost(k, j)
  {
    LeastExists(s);
    assert forall a, b :: a in s && b in s && Lexical.AtMost(a, b) && Lexical.AtMost(b, a) ==> a == b by {
      forall a, b | Lexical.AtMost(a, b) && Lexical.AtMost(b, a) ensures a == b { Lexical.Total(a, b); }
    }
    var k :| k in s && forall j :: j in s ==> Lexical.AtMost(k, j);
    k
  }

  /** The keys in the order json.Marshal writes them. */
  function SortedKeys(s: set<string>): (ks: seq<string>)
    ensures forall k :: k in ks <==> k in s
    ensures forall i, j :: 0 <= i < j < |ks| ==> Lexical.Less(ks[i], ks[j])
    decreases s
  {
    if s == {} then []
    else
      var k := Least(s);
      var rest := SortedKeys(s - {k});
      assert forall i :: 0 <= i < |rest| ==> rest[i] in s - {k};
      [k] + rest
  }

  function SelectorText(m: map<string, string>): string
    requires m != map[]
  {
    var ks := SortedKeys(m.Keys);
    assert ks != [] by {
      var k :| k in m.Keys;
      assert k in ks;
    }
    "{" + Members(m, ks)
  }

  /** A quoted string at the start of s, and what follows it. */
  function TakeQuoted(s: string): (r: Option<(string, string)>)
    ensures r.Some? ==> Quotable(r.value.0) && |r.value.1| < |s|
  {
    if s == [] || s[0] != '"' then None
    else
      var n := IndexOf('"', s[1..]);
      if n == |s[1..]| then None else Some((s[1..][..n], s[1..][n + 1..]))
  }

  function ParseMember(s: string): (r: Option<(string, string, string)>)
    ensures r.Some? ==> |r.value.2| < |s| && Quotable(r.value.0) && Quotable(r.value.1)
  {
    match TakeQuoted(s)
    case None => None
    case Some((k, afterKey)) =>
      if afterKey == [] || afterKey[0] != ':' then None
      else
        match TakeQuoted(afterKey[1..])
        case None => None
        case Some((v, rest)) => Some((k, v, rest))
  }

  function ParseMembers(s: string): (r: Option<map<string, string>>)
    ensures r.Some? ==> Storable(NodeSelector(r.value))
    decreases |s|
  {
    match ParseMember(s)
    case None => None
    case Some((k, v, rest)) =>
      if rest == "}" then Some(map[k := v])
      else if rest != [] && rest[0] == ',' then
        match ParseMembers(rest[1..])
        case None => None
        case Some(more) => Some(map[k := v] + more)
      else None
  }

  function ParseSelector(raw: string): (r: Option<Field>)
    ensures r.Some? ==> r.value.NodeSelector? && Storable(r.value)
  {
    if raw == "null" then Some(NodeSelector(map[]))
    else if raw == [] || raw[0] != '{' then None
    else if raw[1..] == "}" then Some(NodeSelector(map[]))
    else
      match ParseMembers(raw[1..])
      case Some(labels) => Some(NodeSelector(labels))
      case None => None
  }

  lemma TakeQuotedReads(s: string, rest: string)
    requires Quotable(s)
    ensures TakeQuoted(Quote(s) + rest) == Some((s, rest))
  {
    var t := Quote(s) + rest;
    IndexOfFirst('"', s, rest);
    assert t[1..] == s + ['"'] + rest;
    assert t[1..][..|s|] == s && t[1..][|s| + 1..] == rest;
  }

  lemma ParseMemberReads(k: string, v: string, rest: string)
    requires Quotable(k) && Quotable(v)
    ensures ParseMember(Member(k, v) + rest) == Some((k, v, rest))
  {
    var value := Quote(v) + rest;
    MemberSplits(k, v, rest);
    TakeQuotedReads(k, ":" + value);
    TakeQuotedReads(v, rest);
    ParseMemberFrom(Member(k, v) + rest, k, value, v, rest);
  }

  lemma MemberSplits(k: string, v: string, rest: string)
    ensures Member(k, v) + rest == Quote(k) + (":" + (Quote(v) + rest))
  {}

  lemma ParseMemberFrom(s: string, k: string, value: string, v: string, rest: string)
    requires TakeQuoted(s) == Some((k, ":" + value)) && TakeQuoted(value) == Some((v, rest))
    ensures ParseMember(s) == Some((k, v, rest))
  {
    assert (":" + value)[1..] == value;
  }

  ghost function Restrict(m: map<string, string>, ks: seq<string>): map<string, string> {
    map k | k in ks && k in m :: m[k]
  }

  lemma RestrictCons(m: map<string, string>, ks: seq<string>)
    requires ks != [] && ks[0] in m
    ensures Restrict(m, ks) == map[ks[0] := m[ks[0]]] + Restrict(m, ks[1..])
  {}

  lemma ParseMembersLast(s: string, k: string, v: string)
    requires ParseMember(s) == Some((k, v, "}"))
    ensures ParseMembers(s) == Some(map[k := v])
  {}

  lemma ParseMembersCons(s: string, k: string, v: string, inner: string, more: map<string, string>)
    requires ParseMember(s) == Some((k, v, "," + inner)) && ParseMembers(inner) == Some(more)
    ensures ParseMembers(s) == Some(map[k := v] + more)
  {}

  lemma {:induction false} ParseMembersReads(m: map<string, string>, ks: seq<string>)
    requires ks != [] && forall k :: k in ks ==> k in m && Quotable(k) && Quotable(m[k])
    ensures ParseMembers(Members(m, ks)) == Some(Restrict(m, ks))
    decreases |ks|
  {
    var k := ks[0];
    RestrictCons(m, ks);
    ParseMemberReads(k, m[k], Tail(m, ks));
    if |ks| == 1 {
      assert Restrict(m, ks) == map[k := m[k]] by { assert ks[1..] == []; }
      ParseMembersLast(Members(m, ks), k, m[k]);
    } else {
      ParseMembersReads(m, ks[1..]);
      ParseMembersCons(Members(m, ks), k, m[k], Members(m, ks[1..]), Restrict(m, ks[1..]));
    }
  }

  lemma SelectorRoundTrip(m: map<string, string>)
    requires Storable(NodeSelector(m)) && m != map[]
    ensures ParseSelector(SelectorText(m)) == Some(NodeSelector(m))
  {
    var ks := SortedKeys(m.Keys);
    ParseMembersReads(m, ks);
    assert Restrict(m, ks) == m;
    SelectorDecodes(Members(m, ks), m);
  }

  lemma SelectorDecodes(members: string, m: map<string, string>)
    requires ParseMembers(members) == Some(m)
    ensures ParseSelector("{" + members) == Some(NodeSelector(m))
  {}

  // ---------- every checkpoint reads back ----------

  /** Decoding a checkpoint gives back the effective value that was saved. */
  lemma CheckpointRoundTrip(f: Field)
    requires Storable(f)
    ensures Decode(ShapeOf(f), Encode(f)) == Some(Effective(f))
  {
    match Effective(f)
    case Replicas(count) => ParseFormatInt(count.value);
    case Suspend(_) =>
    case Bounds(min, max) => BoundsRoundTrip(min, max);
    case NodeSelector(m) => if m != map[] { SelectorRoundTrip(m); }
  }
}
