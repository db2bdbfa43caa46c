/** internal/checkpoint/store.go: what one attempt of SetRaw and Delete does after reading
    the Secret, and every interleaving of such attempts. */
module StoreLogic {
  import opened Wrappers

  type Data = map<string, string>

  /** retry.DefaultRetry makes five attempts. */
  const ATTEMPTS: nat := 5

  /** The write one attempt issues; Done returns without one. */
  datatype Attempt = Done | CreateSecret(data: Data) | UpdateSecret(data: Data) | RemoveSecret

  /** One attempt of SetRaw: an existing entry is never overwritten. */
  function SetAttempt(seen: Option<Data>, key: string, value: string): Attempt {
    match seen
    case None => CreateSecret(map[key := value])
    case Some(data) => if key in data then Done else UpdateSecret(data[key := value])
  }

  /** One attempt of Delete: the last entry takes the Secret with it. */
  function DeleteAttempt(seen: Option<Data>, key: string): Attempt {
    match seen
    case None => Done
    case Some(data) =>
      if key !in data then Done
      else if data - {key} == map[] then RemoveSecret
      else UpdateSecret(data - {key})
  }
}

/** Concurrent SetRaw and Delete calls on one Secret, call by call. */
module StoreInterleaving {
  import opened Wrappers
  import opened StoreLogic

  datatype Secret = Secret(data: Data, version: nat)

  /** `revision` is the last resource version the API server has handed out. */
  datatype Server = Server(secret: Option<Secret>, revision: nat)

  datatype Task = SetRaw(key: string, value: string) | Delete(key: string)

  datatype Phase =
    | Reading(left: nat)
    | Writing(attempt: Attempt, seen: Option<Secret>, left: nat)
    | Succeeded
    | Exhausted
    | Failed

  datatype Thread = Thread(task: Task, phase: Phase)

  datatype State = State(server: Server, threads: map<nat, Thread>)

  /** Read and Write are API calls that get through; Fault is any other error, or a crash. */
  datatype Step = Start(t: nat, task: Task) | Read(t: nat) | Write(t: nat) | Fault(t: nat)

  function DataOf(secret: Option<Secret>): Data { if secret.Some? then secret.value.data else map[] }

  function Stored(s: State): Data { DataOf(s.server.secret) }

  function AttemptOf(task: Task, seen: Option<Secret>): Attempt {
    var data := if seen.Some? then Some(seen.value.data) else None;
    match task
    case SetRaw(key, value) => SetAttempt(data, key, value)
    case Delete(key) => DeleteAttempt(data, key)
  }

  predicate Enabled(s: State, step: Step) {
    match step
    case Start(t, _) => t !in s.threads
    case Read(t) => t in s.threads && s.threads[t].phase.Reading?
    case Write(t) => t in s.threads && s.threads[t].phase.Writing?
    case Fault(t) => t in s.threads && (s.threads[t].phase.Reading? || s.threads[t].phase.Writing?)
  }

  /** A Conflict or AlreadyExists is retried until the attempts are used up. */
  function Retry(left: nat): Phase { if left <= 1 then Exhausted else Reading(left - 1) }

  function AfterRead(task: Task, seen: Option<Secret>, left: nat): Phase {
    var a := AttemptOf(task, seen);
    if a.Done? then Succeeded else Writing(a, seen, left)
  }

  /** The API server's answer to a write: the new server state and the caller's phase. */
  function AfterWrite(server: Server, attempt: Attempt, seen: Option<Secret>, left: nat): (Server, Phase) {
    var rev := server.revision + 1;
    match attempt
    case Done => (server, Succeeded)
    case CreateSecret(data) =>
      if server.secret.None? then (Server(Some(Secret(data, rev)), rev), Succeeded) else (server, Retry(left))
    case UpdateSecret(data) =>
      if server.secret.None? then (server, Failed)
      else if seen.Some? && server.secret.value.version == seen.value.version then
        (Server(Some(Secret(data, rev)), rev), Succeeded)
      else (server, Retry(left))
    case RemoveSecret => (Server(None, rev), Succeeded)
  }

  function Next(s: State, step: Step): State
    requires Enabled(s, step)
  {
    match step
    case Start(t, task) => s.(threads := s.threads[t := Thread(task, Reading(ATTEMPTS))])
    case Read(t) =>
      var th := s.threads[t];
      s.(threads := s.threads[t := th.(phase := AfterRead(th.task, s.server.secret, th.phase.left))])
    case Write(t) =>
      var th := s.threads[t];
      var (server, phase) := AfterWrite(s.server, th.phase.attempt, th.phase.seen, th.phase.left);
      State(server, s.threads[t := th.(phase := phase)])
    case Fault(t) => s.(threads := s.threads[t := s.threads[t].(phase := Failed)])
  }

  /** The emptying delete carries no version check: it takes along whatever has been written
      since its read. */
  predicate TakesOthersAlong(s: State, step: Step)
    requires Enabled(s, step)
  {
    && step.Write? && s.threads[step.t].phase.attempt.RemoveSecret?
    && !(Stored(s).Keys <= {s.threads[step.t].task.key})
  }

  ghost predicate IsRun(ss: seq<State>, steps: seq<Step>) {
    && |ss| == |steps| + 1
    && forall k :: 0 <= k < |steps| ==>
         Enabled(ss[k], steps[k]) && ss[k + 1] == Next(ss[k], steps[k])
  }

  /** A version names one content of the Secret, and a waiting write is the attempt made
      from what its thread saw. */
  ghost predicate ThreadOk(server: Server, th: Thread) {
    th.phase.Writing? ==>
      && th.phase.attempt == AttemptOf(th.task, th.phase.seen) && !th.phase.attempt.Done?
      && (th.phase.seen.Some? ==> th.phase.seen.value.version <= server.revision)
      && (th.phase.seen.Some? && server.secret.Some? && th.phase.seen.value.version == server.secret.value.version ==>
            th.phase.seen == server.secret)
  }

  ghost predicate Inv(s: State) {
    && (s.server.secret.Some? ==> s.server.secret.value.version <= s.server.revision)
    && forall t :: t in s.threads ==> ThreadOk(s.server, s.threads[t])
  }

  lemma StepPreserves(s: State, step: Step)
    requires Inv(s) && Enabled(s, step)
    ensures Inv(Next(s, step))
  {}

  lemma {:induction false} RunInv(ss: seq<State>, steps: seq<Step>, j: nat)
    requires IsRun(ss, steps) && Inv(ss[0]) && j < |ss|
    ensures Inv(ss[j])
  {
    if j > 0 {
      RunInv(ss, steps, j - 1);
      StepPreserves(ss[j - 1], steps[j - 1]);
    }
  }

  /** Every step is an atomic operation on a write-once map: it changes nothing, or adds the
      key of a SetRaw that was absent, or removes the key of a Delete that was present; and a
      step that changes something ends its call successfully. */
  ghost predicate AtomicEffect(s: State, step: Step)
    requires Enabled(s, step)
  {
    var before, after := Stored(s), Stored(Next(s, step));
    || after == before
    || (&& step.Write? && Next(s, step).threads[step.t].phase.Succeeded?
        && match s.threads[step.t].task
           case SetRaw(key, value) => key !in before && after == before[key := value]
           case Delete(key) => key in before && after == before - {key})
  }

  /** A step is such an operation exactly unless it takes other entries along. */
  lemma StepIsAtomic(s: State, step: Step)
    requires Inv(s) && Enabled(s, step)
    ensures AtomicEffect(s, step) <==> !TakesOthersAlong(s, step)
    ensures TakesOthersAlong(s, step) ==> Stored(Next(s, step)) == map[]
  {
    if step.Write? {
      assert ThreadOk(s.server, s.threads[step.t]);
      if s.threads[step.t].phase.attempt.RemoveSecret? { RemoveLosesLaterEntries(s, step); }
    }
  }

  /** A call that ends successfully has done its job at that step. */
  lemma SuccessMeansDone(s: State, step: Step)
    requires Inv(s) && Enabled(s, step) && !step.Start?
    requires Next(s, step).threads[step.t].phase.Succeeded?
    ensures match s.threads[step.t].task
            case SetRaw(key, _) => key in Stored(Next(s, step))
            case Delete(key) => key !in Stored(Next(s, step))
  {}

  /** The step commits a Delete of the key: its write gets through. */
  predicate Deletes(s: State, step: Step, key: string)
    requires Enabled(s, step)
  {
    step.Write? && s.threads[step.t].task == Delete(key) && Next(s, step).threads[step.t].phase.Succeeded?
  }

  /** The first value of a key wins until a Delete of the key commits, or the emptying Delete of
      another one takes it along; Deletes that conflict, retry or give up do not disturb it. */
  lemma {:induction false} FirstValueWins(ss: seq<State>, steps: seq<Step>, i: nat, j: nat, key: string)
    requires IsRun(ss, steps) && Inv(ss[0]) && i <= j < |ss|
    requires key in Stored(ss[i])
    requires forall k :: i <= k < j ==> !Deletes(ss[k], steps[k], key) && !TakesOthersAlong(ss[k], steps[k])
    ensures key in Stored(ss[j]) && Stored(ss[j])[key] == Stored(ss[i])[key]
    decreases j
  {
    if i < j {
      FirstValueWins(ss, steps, i, j - 1, key);
      RunInv(ss, steps, j - 1);
      StepIsAtomic(ss[j - 1], steps[j - 1]);
    }
  }

  lemma {:induction false} EndedStays(ss: seq<State>, steps: seq<Step>, i: nat, j: nat, t: nat)
    requires IsRun(ss, steps) && i <= j < |ss|
    requires t in ss[i].threads && !ss[i].threads[t].phase.Reading? && !ss[i].threads[t].phase.Writing?
    ensures t in ss[j].threads && ss[j].threads[t] == ss[i].threads[t]
    decreases j
  {
    if i < j {
      EndedStays(ss, steps, i, j - 1, t);
      assert Enabled(ss[j - 1], steps[j - 1]);
    }
  }

  /** A call that exhausts its retries, fails or crashes has changed nothing. */
  lemma UnsuccessfulChangedNothing(ss: seq<State>, steps: seq<Step>, i: nat, j: nat, t: nat)
    requires IsRun(ss, steps) && Inv(ss[0]) && i < j < |ss|
    requires t in ss[j].threads && (ss[j].threads[t].phase.Exhausted? || ss[j].threads[t].phase.Failed?)
    requires steps[i].t == t
    ensures Stored(ss[i + 1]) == Stored(ss[i])
  {
    RunInv(ss, steps, i);
    StepIsAtomic(ss[i], steps[i]);
    assert Enabled(ss[i], steps[i]) && ss[i + 1] == Next(ss[i], steps[i]);
    if Stored(ss[i + 1]) != Stored(ss[i]) {
      EndedStays(ss, steps, i + 1, j, t);
      assert false;
    }
  }

  predicate Lost(p: Phase) { p.Reading? || p.Exhausted? }

  /** How many of t's writes up to j conflicted. */
  ghost function Conflicts(ss: seq<State>, steps: seq<Step>, t: nat, j: nat): nat
    requires IsRun(ss, steps) && j < |ss|
  {
    if j == 0 then 0
    else
      assert Enabled(ss[j - 1], steps[j - 1]);
      Conflicts(ss, steps, t, j - 1) +
      if steps[j - 1] == Write(t) && Lost(Next(ss[j - 1], steps[j - 1]).threads[t].phase) then 1 else 0
  }

  /** A call gives up on the fifth conflict, and not before. */
  lemma {:induction false} GivesUpOnTheFifthConflict(ss: seq<State>, steps: seq<Step>, t: nat, j: nat)
    requires IsRun(ss, steps) && j < |ss| && t !in ss[0].threads
    ensures t !in ss[j].threads ==> Conflicts(ss, steps, t, j) == 0
    ensures t in ss[j].threads ==>
              match ss[j].threads[t].phase
              case Reading(left) => Conflicts(ss, steps, t, j) + left == 5 && left > 0
              case Writing(_, _, left) => Conflicts(ss, steps, t, j) + left == 5 && left > 0
              case Exhausted => Conflicts(ss, steps, t, j) == 5
              case _ => Conflicts(ss, steps, t, j) < 5
    decreases j
  {
    if j > 0 {
      GivesUpOnTheFifthConflict(ss, steps, t, j - 1);
      assert Enabled(ss[j - 1], steps[j - 1]) && ss[j] == Next(ss[j - 1], steps[j - 1]);
    }
  }

  /** Without being alone, the emptying delete empties whatever is there: it loses another
      entry exactly when another entry has been written since its read. */
  lemma RemoveLosesLaterEntries(s: State, step: Step)
    requires Inv(s) && Enabled(s, step) && step.Write? && s.threads[step.t].phase.attempt.RemoveSecret?
    ensures Stored(Next(s, step)) == map[]
    ensures AtomicEffect(s, step) <==> Stored(s).Keys <= {s.threads[step.t].task.key}
  {
    assert ThreadOk(s.server, s.threads[step.t]);
    var key := s.threads[step.t].task.key;
    if Stored(s).Keys <= {key} {
      assert Stored(s) - {key} == map[];
      if Stored(s).Keys != {} {
        assert key in Stored(s).Keys;
      } else {
        assert Stored(s) == map[];
      }
    }
    if Stored(s) - {key} == map[] {
      assert forall k :: k in Stored(s) && k != key ==> k in (Stored(s) - {key});
    }
  }

  /** A race from a server without any call in flight: A reads the last entry to delete it, B
      reads it too and saves another one, and A's delete then takes the Secret with it. */
  function RaceStep(n: nat): Step {
    match n
    case 0 => Start(0, Delete("a"))
    case 1 => Start(1, SetRaw("b", "2"))
    case 2 => Read(0)
    case 3 => Read(1)
    case 4 => Write(1)
    case _ => Write(0)
  }

  const BOTH: Data := map["a" := "1", "b" := "2"]

  function RaceServer(n: nat): Server {
    if n < 5 then Server(Some(Secret(map["a" := "1"], 1)), 1)
    else if n == 5 then Server(Some(Secret(BOTH, 2)), 2)
    else Server(None, 3)
  }

  function RaceThreads(n: nat): map<nat, Thread> {
    var seen := RaceServer(0).secret;
    var a, b := Thread(Delete("a"), Reading(ATTEMPTS)), Thread(SetRaw("b", "2"), Reading(ATTEMPTS));
    var a', b' := a.(phase := Writing(RemoveSecret, seen, ATTEMPTS)), b.(phase := Writing(UpdateSecret(BOTH), seen, ATTEMPTS));
    match n
    case 0 => map[]
    case 1 => map[0 := a]
    case 2 => map[0 := a, 1 := b]
    case 3 => map[0 := a', 1 := b]
    case 4 => map[0 := a', 1 := b']
    case 5 => map[0 := a', 1 := b'.(phase := Succeeded)]
    case _ => map[0 := a'.(phase := Succeeded), 1 := b'.(phase := Succeeded)]
  }

  function Race(n: nat): State { State(RaceServer(n), RaceThreads(n)) }

  lemma RaceIsARun(n: nat)
    requires n < 6
    ensures Enabled(Race(n), RaceStep(n)) && Next(Race(n), RaceStep(n)) == Race(n + 1)
  {
    if n < 2 {
    } else if n < 4 {
      RaceReads(n);
    } else {
      assert RaceThreads(n)[RaceStep(n).t].phase.Writing?;
    }
  }

  lemma RaceReads(n: nat)
    requires 2 <= n < 4
    ensures Enabled(Race(n), RaceStep(n)) && Next(Race(n), RaceStep(n)) == Race(n + 1)
  {
    assert map["a" := "1"] - {"a"} == map[];
    assert map["a" := "1"]["b" := "2"] == BOTH;
  }

  /** Such an interleaving exists: both calls succeed, and B's entry is gone. */
  lemma EmptyingDeleteLosesAnEntry()
    ensures Race(0).threads == map[] && Inv(Race(0))
    ensures forall n | 0 <= n < 6 :: Enabled(Race(n), RaceStep(n)) && Next(Race(n), RaceStep(n)) == Race(n + 1)
    ensures Race(6).threads[0] == Thread(Delete("a"), Succeeded) && Race(6).threads[1] == Thread(SetRaw("b", "2"), Succeeded)
    ensures "b" in Stored(Race(5)) && "b" !in Stored(Race(6))
  {
    forall n | 0 <= n < 6 ensures Enabled(Race(n), RaceStep(n)) && Next(Race(n), RaceStep(n)) == Race(n + 1) {
      RaceIsARun(n);
    }
  }
}
