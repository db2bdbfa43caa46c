/** internal/webhook/v1alpha1/sleepschedule_webhook.go, and why an admitted schedule always flips. */
module Admission {
  import opened Zones
  import opened Api
  import opened Schedule
  import opened Transitions
  import opened NoTransition
  import opened FailingInputs
  import Decimal
  import Lexical

  datatype FieldError =
    | UnknownTimezone
    | WindowOrder(window: nat)
    | NamespacesRequired
    | SelectorRequired
    | MaxNotPositive
    | DefaultNotPositive
    | DefaultExceedsMax

  /** The CRD pattern ^([01]\d|2[0-3]):[0-5]\d$ */
  predicate MatchesPattern(s: string) {
    && |s| == 5 && s[2] == ':'
    && Decimal.IsDigit(s[1]) && Decimal.IsDigit(s[4])
    && (s[0] == '0' || s[0] == '1' || (s[0] == '2' && s[1] <= '3'))
    && '0' <= s[3] <= '5'
  }

  /** What the CRD schema demands of the awake windows. */
  ghost predicate PassesSchema(spec: SleepScheduleSpec) {
    && spec.awake != []
    && forall w :: w in spec.awake ==> w.days != [] && MatchesPattern(w.from) && MatchesPattern(w.to)
  }

  /** The conditions under which one check of the webhook reports an error. */
  ghost predicate Violates(spec: SleepScheduleSpec, zoneKnown: bool, e: FieldError) {
    match e
    case UnknownTimezone => !zoneKnown
    case WindowOrder(i) => i < |spec.awake| && Lexical.AtMost(spec.awake[i].to, spec.awake[i].from)
    case NamespacesRequired => spec.target.mode == "namespaces" && spec.target.namespaces == []
    case SelectorRequired => spec.target.mode == "labels" && spec.target.selector.None?
    case MaxNotPositive => spec.temporaryWake.Some? && spec.temporaryWake.value.maxDuration <= 0
    case DefaultNotPositive => spec.temporaryWake.Some? && spec.temporaryWake.value.defaultDuration <= 0
    case DefaultExceedsMax =>
      && spec.temporaryWake.Some?
      && 0 < spec.temporaryWake.value.maxDuration < spec.temporaryWake.value.defaultDuration
  }

  /** Collects exactly the violated checks. */
  method Validate(spec: SleepScheduleSpec, zoneKnown: bool) returns (errs: seq<FieldError>)
    ensures forall e :: e in errs <==> Violates(spec, zoneKnown, e)
  {
    errs := [];
    if !zoneKnown { errs := errs + [UnknownTimezone]; }
    for i := 0 to |spec.awake|
      invariant forall e :: e in errs <==>
                            || (e == UnknownTimezone && !zoneKnown)
                            || (e.WindowOrder? && e.window < i && Violates(spec, zoneKnown, e))
    {
      if Lexical.AtMost(spec.awake[i].to, spec.awake[i].from) {
        errs := errs + [WindowOrder(i)];
      }
    }
    ghost var ordered := errs;
    assert forall e :: e in ordered <==> (e == UnknownTimezone || e.WindowOrder?) && Violates(spec, zoneKnown, e);
    if spec.target.mode == "namespaces" {
      if spec.target.namespaces == [] { errs := errs + [NamespacesRequired]; }
    } else if spec.target.mode == "labels" {
      if spec.target.selector.None? { errs := errs + [SelectorRequired]; }
    }
    if spec.temporaryWake.Some? {
      var tw := spec.temporaryWake.value;
      if tw.maxDuration <= 0 { errs := errs + [MaxNotPositive]; }
      if tw.defaultDuration <= 0 { errs := errs + [DefaultNotPositive]; }
      if tw.maxDuration > 0 && tw.defaultDuration > tw.maxDuration { errs := errs + [DefaultExceedsMax]; }
    }
  }

  /** On zero-padded "HH:MM" strings the byte-wise order is the order of the minutes. */
  lemma LexicalIsNumeric(a: string, b: string)
    requires MatchesPattern(a) && MatchesPattern(b)
    ensures ParseHHMM(a).Some? && ParseHHMM(b).Some?
    ensures Lexical.Less(a, b) <==> ParseHHMM(a).value < ParseHHMM(b).value
  {
    LessByDigit(a, b);
  }

  lemma LessByDigit(a: string, b: string)
    requires |a| == |b| == 5
    ensures Lexical.Less(a, b) <==>
            exists i | 0 <= i < 5 :: a[i] < b[i] && forall j | 0 <= j < i :: a[j] == b[j]
  {
    LessUnfold(a, b, 0);
    LessUnfold(a, b, 1);
    LessUnfold(a, b, 2);
    LessUnfold(a, b, 3);
    LessUnfold(a, b, 4);
  }

  lemma LessUnfold(a: string, b: string, i: nat)
    requires i < |a| == |b|
    ensures Lexical.Less(a[i..], b[i..]) <==> a[i] < b[i] || (a[i] == b[i] && Lexical.Less(a[i + 1..], b[i + 1..]))
  {}

  /** The CRD pattern admits exactly the times of day. */
  lemma PatternIsATime(s: string)
    ensures MatchesPattern(s) <==> exists h, m :: h < 24 && m < 60 && s == HHMM(h, m)
  {
    if MatchesPattern(s) {
      var h, m := OnlyTimesRead(s);
      assert s == HHMM(h, m);
    }
    if h, m :| h < 24 && m < 60 && s == HHMM(h, m) {
      TimeReads(h, m);
      PatternOfTwo(h, m);
    }
  }

  lemma PatternOfTwo(h: nat, m: nat)
    requires h < 24 && m < 60
    ensures MatchesPattern(HHMM(h, m))
  {}

  /** What the webhook demands: a known timezone, windows that end after they start, namespaces or
      a selector where the mode uses them, and a positive default within the cap. */
  lemma AdmissionRules(spec: SleepScheduleSpec, zoneKnown: bool)
    requires PassesSchema(spec)
    ensures (forall e :: !Violates(spec, zoneKnown, e)) <==>
            && zoneKnown
            && (forall w :: w in spec.awake ==> MinutesOf(w.from) < MinutesOf(w.to))
            && (spec.target.mode == "namespaces" ==> |spec.target.namespaces| > 0)
            && (spec.target.mode == "labels" ==> spec.target.selector.Some?)
            && (spec.temporaryWake.Some? ==>
                  0 < spec.temporaryWake.value.defaultDuration <= spec.temporaryWake.value.maxDuration)
  {
    WindowRule(spec, zoneKnown);
    OtherRules(spec, zoneKnown);
  }

  lemma WindowRule(spec: SleepScheduleSpec, zoneKnown: bool)
    requires PassesSchema(spec)
    ensures (forall e: FieldError :: e.WindowOrder? ==> !Violates(spec, zoneKnown, e)) <==>
            forall w :: w in spec.awake ==> MinutesOf(w.from) < MinutesOf(w.to)
  {
    forall i | 0 <= i < |spec.awake|
      ensures Violates(spec, zoneKnown, WindowOrder(i)) <==> MinutesOf(spec.awake[i].to) <= MinutesOf(spec.awake[i].from)
    {
      OrderInMinutes(spec.awake[i]);
    }
    if forall e: FieldError :: e.WindowOrder? ==> !Violates(spec, zoneKnown, e) {
      forall w | w in spec.awake ensures MinutesOf(w.from) < MinutesOf(w.to) {
        var i :| 0 <= i < |spec.awake| && spec.awake[i] == w;
        assert !Violates(spec, zoneKnown, WindowOrder(i));
      }
    }
  }

  lemma OtherRules(spec: SleepScheduleSpec, zoneKnown: bool)
    ensures (forall e: FieldError :: !e.WindowOrder? ==> !Violates(spec, zoneKnown, e)) <==>
            && zoneKnown
            && (spec.target.mode == "namespaces" ==> |spec.target.namespaces| > 0)
            && (spec.target.mode == "labels" ==> spec.target.selector.Some?)
            && (spec.temporaryWake.Some? ==>
                  0 < spec.temporaryWake.value.defaultDuration <= spec.temporaryWake.value.maxDuration)
  {
    if forall e: FieldError :: !e.WindowOrder? ==> !Violates(spec, zoneKnown, e) {
      assert !Violates(spec, zoneKnown, UnknownTimezone) && !Violates(spec, zoneKnown, NamespacesRequired)
             && !Violates(spec, zoneKnown, SelectorRequired) && !Violates(spec, zoneKnown, MaxNotPositive)
             && !Violates(spec, zoneKnown, DefaultNotPositive) && !Violates(spec, zoneKnown, DefaultExceedsMax);
    }
  }

  function MinutesOf(s: string): nat { if ParseHHMM(s).Some? then ParseHHMM(s).value else 0 }

  lemma OrderInMinutes(w: Window)
    requires MatchesPattern(w.from) && MatchesPattern(w.to)
    ensures Lexical.AtMost(w.to, w.from) <==> MinutesOf(w.to) <= MinutesOf(w.from)
  {
    LexicalIsNumeric(w.from, w.to);
    LexicalIsNumeric(w.to, w.from);
    Lexical.Total(w.from, w.to);
  }

  /** A schedule that passes the schema and the webhook has a next transition exactly unless
      the clock jumps over every opening in sight. */
  lemma AdmittedAlwaysFlips(spec: SleepScheduleSpec, z: Zone, now: int, r: Evaluation)
    requires PassesSchema(spec) && forall e :: !Violates(spec, true, e)
    requires MildJump(z) && IsEvaluation(spec, z, now, r)
    ensures r.next.Some? <==> !Overlooked(spec, z, now)
    ensures r.next.Some? ==> now < r.next.value <= now + HORIZON && AwakeAt(spec, z, r.next.value) != AwakeAt(spec, z, now)
  {
    AdmittedIsNonEmpty(spec);
    NoTransitionExactly(spec, z, now, r);
    if r.next.Some? { var w, day, m := BoundaryIsAnEdge(spec, z, now, r.next.value); }
  }

  lemma AdmittedIsNonEmpty(spec: SleepScheduleSpec)
    requires PassesSchema(spec) && forall e :: !Violates(spec, true, e)
    ensures HasOpenings(spec)
  {
    var w := spec.awake[0];
    assert !Violates(spec, true, WindowOrder(0));
    LexicalIsNumeric(w.from, w.to);
    Lexical.Total(w.from, w.to);
    assert w in spec.awake && NonEmpty(w);
  }

  /** When the clock is put back or stays, and when no edge lies in the jump, there always is one. */
  lemma AdmittedFlipsAcrossAQuietJump(spec: SleepScheduleSpec, z: Zone, now: int, r: Evaluation)
    requires PassesSchema(spec) && forall e :: !Violates(spec, true, e)
    requires z.Valid() && z.SkipsLessThanADay() && IsEvaluation(spec, z, now, r)
    requires Regular(spec, z) || (MildJump(z) && z.after <= z.before)
    ensures r.next.Some?
  {
    if Regular(spec, z) { RegularIsSeen(spec, z, now); }
    AdmittedAlwaysFlips(spec, z, now, r);
  }

  /** In particular with a constant zone offset. */
  lemma AdmittedAlwaysFlipsConstantOffset(spec: SleepScheduleSpec, offset: int, now: int, r: Evaluation)
    requires PassesSchema(spec) && forall e :: !Violates(spec, true, e)
    requires Zone(offset, 0, offset).Valid()
    requires IsEvaluation(spec, Zone(offset, 0, offset), now, r)
    ensures r.next.Some? && now < r.next.value <= now + HORIZON
  {
    ConstantOffsetIsRegular(spec, Zone(offset, 0, offset));
    AdmittedFlipsAcrossAQuietJump(spec, Zone(offset, 0, offset), now, r);
    RegularIsSeen(spec, Zone(offset, 0, offset), now);
    AdmittedAlwaysFlips(spec, Zone(offset, 0, offset), now, r);
  }

  /** The unreported windows of the failing inputs get past the schema and the webhook. */
  lemma UnreportedWindowsAreAdmitted(w: Window)
    requires w == SKIPPED_WINDOW || w == MIDNIGHT_WINDOW
    ensures PassesSchema(SpecOf(w)) && forall e :: !Violates(SpecOf(w), true, e)
  {
    assert SpecOf(w).awake == [w];
    AdmittedHours(w.from, w.to);
    LexicalIsNumeric(w.from, w.to);
    Lexical.Total(w.from, w.to);
  }

  lemma AdmittedHours(from: string, to: string)
    requires (from == "02:10" && to == "02:50") || (from == "00:10" && to == "00:50")
    ensures MatchesPattern(from) && MatchesPattern(to)
    ensures ParseHHMM(from).Some? && ParseHHMM(to).Some? && ParseHHMM(from).value < ParseHHMM(to).value
  {}
}
