/** The API server the operator talks to. Every call may fail; a failed call has no effect, and
    ghost counters tell a failure of the server from an answer that the stored state calls for. */
module ApiServer {
  import opened Wrappers
  import opened Clock
  import opened Api
  import opened Checkpoint
  import opened Workloads
  import opened Cluster
  import opened FieldDocs
  import opened MergePatch
  import opened StoreLogic
  import opened StoreInterleaving

  datatype ApiError = NoError | Conflict | AlreadyExists | NotFound | Other

  /** isTransientWrite */
  predicate Transient(e: ApiError) { e.Conflict? || e.AlreadyExists? }

  /** The status of the SleepSchedule; times are stored as RFC 3339 text, to the second. */
  datatype Status = Status(phase: Option<Api.Phase>, nextTransition: Option<int>, activeWakes: int)

  function StoredStatus(s: Status): Status {
    s.(nextTransition := if s.nextTransition.Some? then Some(Truncate(s.nextTransition.value)) else None)
  }

  class Client {
    var objs: map<Ref, Obj>
    var secret: Option<Secret>
    var revision: nat
    var configMap: Option<map<string, string>>
    var status: Status
    /** The schedule's namespace is being deleted: creating in it is refused. */
    var terminating: bool
    /** Calls that failed, but for the conflicts on the checkpoint Secret, which are retried. Only
        the methods of this class count. */
    ghost var faults: nat
    ghost var conflicts: nat
    /** Status updates refused because the schedule has changed since it was read. */
    ghost var statusConflicts: nat

    /** More has gone wrong since the counters stood at these values than retries make up for. */
    ghost predicate Disturbed(faultsBefore: nat, conflictsBefore: nat)
      reads this
    {
      faults > faultsBefore || conflicts >= conflictsBefore + 5
    }

    /** Counters only grow. */
    ghost predicate Later(faultsBefore: nat, conflictsBefore: nat)
      reads this
    {
      faults >= faultsBefore && conflicts >= conflictsBefore
    }

    ghost function World(): Cluster.World
      reads this
    {
      Cluster.World(objs, DataOf(secret))
    }

    /** Whether a call gets through. */
    method GetsThrough() returns (ok: bool)
      modifies this`faults
      ensures faults == old(faults) + if ok then 0 else 1
    {
      ok := *;
      if !ok { faults := faults + 1; }
    }

    /** Any outcome the network or the server may produce on a write of the Secret. */
    method WriteOutcome() returns (e: ApiError)
      modifies this`faults, this`conflicts
      ensures conflicts == old(conflicts) + if Transient(e) then 1 else 0
      ensures faults == old(faults) + if e.NoError? || Transient(e) then 0 else 1
    {
      e := *;
      if Transient(e) { conflicts := conflicts + 1; } else if !e.NoError? { faults := faults + 1; }
    }

    /** A workload by name; None when it no longer exists. */
    method GetObj(ref: Ref) returns (ok: bool, o: Option<Obj>)
      modifies this`faults
      ensures faults == old(faults) + if ok then 0 else 1
      ensures ok ==> o == if ref in objs then Some(objs[ref]) else None
    {
      ok := GetsThrough();
      o := if ref in objs then Some(objs[ref]) else None;
    }

    /** Applies a merge patch to the part of the spec document its handler reads and writes. */
    method PatchObj(ref: Ref, patch: Json) returns (ok: bool)
      requires ref in objs && patch.Obj?
      modifies this`objs, this`faults
      ensures faults == old(faults) + if ok then 0 else 1
      ensures objs == if ok
                      then old(objs)[ref := old(objs)[ref].(field :=
                             FieldIn(ShapeOf(old(objs)[ref].field), Apply(DocOf(old(objs)[ref].field), patch)))]
                      else old(objs)
    {
      ok := GetsThrough();
      if ok {
        var o := objs[ref];
        objs := objs[ref := o.(field := FieldIn(ShapeOf(o.field), Apply(DocOf(o.field), patch)))];
      }
    }

    method GetSecret() returns (ok: bool, s: Option<Secret>)
      modifies this`faults
      ensures faults == old(faults) + if ok then 0 else 1
      ensures ok ==> s == secret
    {
      ok := GetsThrough();
      s := secret;
    }

    /** The answers that the stored state calls for come without a fault. */
    method CreateSecret(data: Data) returns (e: ApiError)
      modifies this`secret, this`revision, this`faults, this`conflicts
      ensures e.NoError? ==> old(secret).None? && secret.Some? && secret.value.data == data
      ensures !e.NoError? ==> secret == old(secret)
      ensures old(secret).None? ==>
                && conflicts == old(conflicts) + (if Transient(e) then 1 else 0)
                && faults == old(faults) + if e.NoError? || Transient(e) then 0 else 1
      ensures Later(old(faults), old(conflicts))
    {
      if secret.Some? { return AlreadyExists; }
      e := WriteOutcome();
      if e.NoError? {
        revision := revision + 1;
        secret := Some(Secret(data, revision));
      }
    }

    method UpdateSecret(data: Data, version: nat) returns (e: ApiError)
      modifies this`secret, this`revision, this`faults, this`conflicts
      ensures e.NoError? ==> old(secret).Some? && old(secret).value.version == version
                             && secret.Some? && secret.value.data == data
      ensures !e.NoError? ==> secret == old(secret)
      ensures old(secret).Some? && old(secret).value.version == version ==>
                && conflicts == old(conflicts) + (if Transient(e) then 1 else 0)
                && faults == old(faults) + if e.NoError? || Transient(e) then 0 else 1
      ensures Later(old(faults), old(conflicts))
    {
      if secret.None? { return NotFound; }
      if secret.value.version != version { return Conflict; }
      e := WriteOutcome();
      if e.NoError? {
        revision := revision + 1;
        secret := Some(Secret(data, revision));
      }
    }

    method DeleteSecret() returns (e: ApiError)
      modifies this`secret, this`revision, this`faults, this`conflicts
      ensures e.NoError? || e.NotFound? ==> secret.None?
      ensures e.NotFound? ==> old(secret).None?
      ensures !e.NoError? ==> secret == old(secret)
      ensures old(secret).Some? ==>
                && conflicts == old(conflicts) + (if Transient(e) then 1 else 0)
                && faults == old(faults) + if e.NoError? || Transient(e) then 0 else 1
      ensures Later(old(faults), old(conflicts))
    {
      if secret.None? { return NotFound; }
      e := WriteOutcome();
      if e.NotFound? { e := Other; }
      if e.NoError? {
        revision := revision + 1;
        secret := None;
      }
    }

    method GetConfigMap() returns (ok: bool, cm: Option<map<string, string>>)
      modifies this`faults
      ensures faults == old(faults) + if ok then 0 else 1
      ensures ok ==> cm == configMap
    {
      ok := GetsThrough();
      cm := configMap;
    }

    /** A create in a terminating namespace is refused. */
    method CreateConfigMap() returns (ok: bool, refused: bool)
      requires configMap.None?
      modifies this`configMap, this`faults
      ensures refused ==> terminating
      ensures faults == old(faults) + if ok || refused then 0 else 1
      ensures configMap == if ok then Some(map[]) else None
    {
      refused := terminating;
      if refused { return false, true; }
      ok := GetsThrough();
      if ok { configMap := Some(map[]); }
    }

    method UpdateConfigMap(data: map<string, string>) returns (ok: bool)
      modifies this`configMap, this`faults
      ensures faults == old(faults) + if ok then 0 else 1
      ensures configMap == if ok then Some(data) else old(configMap)
    {
      ok := GetsThrough();
      if ok { configMap := Some(data); }
    }

    method UpdateStatus(s: Status) returns (e: ApiError)
      modifies this`status, this`faults, this`statusConflicts
      ensures faults == old(faults) + if e.NoError? then 0 else 1
      ensures statusConflicts == old(statusConflicts) + if e.Conflict? then 1 else 0
      ensures status == if e.NoError? then StoredStatus(s) else old(status)
    {
      e := *;
      if e.NoError? { status := StoredStatus(s); } else { faults := faults + 1; }
      if e.Conflict? { statusConflicts := statusConflicts + 1; }
    }
  }
}

/** internal/checkpoint/store.go as run by one operator. */
module CheckpointStore {
  import opened Wrappers
  import opened Api
  import opened Decimal
  import opened StoreLogic
  import opened StoreInterleaving
  import opened ApiServer

  /** The raw value under a key; an absent Secret holds none. */
  method GetRaw(c: Client, key: string) returns (ok: bool, raw: Option<string>)
    modifies c`faults
    ensures c.faults == old(c.faults) + if ok then 0 else 1
    ensures ok ==> raw == if key in DataOf(c.secret) then Some(DataOf(c.secret)[key]) else None
  {
    var got, sec := c.GetSecret();
    if !got { return false, None; }
    if sec.None? { return true, None; }
    raw := if key in sec.value.data then Some(sec.value.data[key]) else None;
    return true, raw;
  }

  /** Records value for key unless the key is already there; a failure changes nothing. It gives
      up only on a fault or on the fifth conflict. */
  method SetRaw(c: Client, key: string, value: string) returns (ok: bool)
    modifies c`secret, c`revision, c`faults, c`conflicts
    ensures DataOf(c.secret) ==
            if ok && key !in DataOf(old(c.secret)) then DataOf(old(c.secret))[key := value] else DataOf(old(c.secret))
    ensures c.Later(old(c.faults), old(c.conflicts))
    ensures !ok ==> c.Disturbed(old(c.faults), old(c.conflicts))
    ensures c.conflicts <= old(c.conflicts) + if ok then 4 else 5
  {
    var attempts := 0;
    while attempts < ATTEMPTS
      invariant c.secret == old(c.secret)
      invariant attempts <= ATTEMPTS && c.faults == old(c.faults) && c.conflicts == old(c.conflicts) + attempts
    {
      var got, sec := c.GetSecret();
      if !got { return false; }
      var e := NoError;
      match SetAttempt(if sec.Some? then Some(sec.value.data) else None, key, value) {
        case Done => return true;
        case CreateSecret(data) => e := c.CreateSecret(data);
        case UpdateSecret(data) => e := c.UpdateSecret(data, sec.value.version);
      }
      if e.NoError? {
        return true;
      }
      if !Transient(e) { return false; }
      attempts := attempts + 1;
    }
    return false;
  }

  /** Removes the entry of key, and the Secret with its last entry; a failure changes nothing.
      It gives up only on a fault or on the fifth conflict. */
  method Delete(c: Client, key: string) returns (ok: bool)
    modifies c`secret, c`revision, c`faults, c`conflicts
    ensures DataOf(c.secret) == if ok then DataOf(old(c.secret)) - {key} else DataOf(old(c.secret))
    ensures c.Later(old(c.faults), old(c.conflicts))
    ensures !ok ==> c.Disturbed(old(c.faults), old(c.conflicts))
    ensures c.conflicts <= old(c.conflicts) + if ok then 4 else 5
  {
    var attempts := 0;
    while attempts < ATTEMPTS
      invariant c.secret == old(c.secret)
      invariant attempts <= ATTEMPTS && c.faults == old(c.faults) && c.conflicts == old(c.conflicts) + attempts
    {
      var got, sec := c.GetSecret();
      if !got { return false; }
      var e := NoError;
      match DeleteAttempt(if sec.Some? then Some(sec.value.data) else None, key) {
        case Done =>
          assert DataOf(c.secret) == DataOf(c.secret) - {key};
          return true;
        case RemoveSecret =>
          e := c.DeleteSecret();
          if e.NotFound? { return true; }
        case UpdateSecret(data) => e := c.UpdateSecret(data, sec.value.version);
      }
      if e.NoError? { return true; }
      if !Transient(e) { return false; }
      attempts := attempts + 1;
    }
    return false;
  }

  /** A replica count; an unreadable one is an error, and the only one that is no fault. */
  method Get(c: Client, key: string) returns (ok: bool, n: Option<Int32>)
    modifies c`faults
    ensures c.faults >= old(c.faults)
    ensures ok ==> c.faults == old(c.faults)
    ensures !ok ==> c.faults > old(c.faults) || (key in DataOf(c.secret) && ParseInt32(DataOf(c.secret)[key]).None?)
    ensures ok ==> (n.Some? <==> key in DataOf(c.secret))
    ensures ok && n.Some? ==> ParseInt32(DataOf(c.secret)[key]) == n
  {
    var got, raw := GetRaw(c, key);
    if !got { return false, None; }
    if raw.None? { return true, None; }
    n := ParseInt32(raw.value);
    return n.Some?, n;
  }
}
