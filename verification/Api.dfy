/** api/v1alpha1/sleepschedule_types.go: the part of a SleepSchedule the operator reads. */
module Api {
  import opened Wrappers

  type Int32 = x: int | -0x8000_0000 <= x < 0x8000_0000

  datatype Phase = Asleep | Awake | WokenByOverride

  /** Awake on `days` from `from` (inclusive) to `to` (exclusive), both "HH:MM". */
  datatype Window = Window(days: seq<string>, from: string, to: string)

  datatype Requirement = Requirement(key: string, operator: string, values: seq<string>)

  /** matchLabels and matchExpressions; Malformed has a key or value that is no label text. */
  datatype LabelSelector = Terms(labels: map<string, string>, expressions: seq<Requirement>) | Malformed

  datatype Target = Target(mode: string, namespaces: seq<string>, selector: Option<LabelSelector>)

  /** An empty namespace matches the kind and name in any namespace. */
  datatype ResourceRef = ResourceRef(kind: string, name: string, namespace: string)

  datatype TemporaryWake = TemporaryWake(maxDuration: int, defaultDuration: int)

  /** spec.timezone is represented by the Zone it names, passed separately. */
  datatype SleepScheduleSpec = SleepScheduleSpec(
    awake: seq<Window>,
    target: Target,
    kinds: seq<string>,
    excludeRefs: seq<ResourceRef>,
    sleepReplicas: Int32,
    temporaryWake: Option<TemporaryWake>,
    dryRun: bool)
}
