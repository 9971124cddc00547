/** C_GatherBase, C_GatherSub and C_GatherBuilderBase (include/Context.h): one finisher for many
    sub-contexts that finish, or are destroyed, in any thread and order. */
module Gather {
  import opened Basics

  type Sub = nat

  /** Where a sub is in its life: made; in finish(), behind sub_finish; about to be destroyed, by
      complete() or by its owner; destroyed. */
  datatype Stage = Alive | Finishing | Dying | Gone

  /** A sub's pointer to its gather (null or not), and where the sub is. */
  datatype SubState = SubState(gather: bool, stage: Stage)

  /** The builder (hasGather, finisher), the gather it made, the subs, and a history: which subs
      still owe a report, what each sub reported, and what the finisher was completed with. A thread
      that has found the gather done but not yet run delete_me is counted in `deciding`. */
  datatype State = State(hasGather: bool, finisher: bool,
                         result: int, onfinish: bool, created: nat, existing: int, activated: bool,
                         subs: map<Sub, SubState>, deciding: nat, deleted: bool,
                         owing: set<Sub>, reports: seq<(Sub, int)>, completed: seq<int>)

  datatype Step =
    | SetFinisher
    | NewSub(sub: Sub)
    | Finish(sub: Sub, r: int)   // sub->complete(r), up to the end of sub_finish
    | LetGo(sub: Sub)            // gather = 0, behind it
    | Drop(sub: Sub)             // the owner deletes a sub that never finished
    | Destruct(sub: Sub)         // ~C_GatherSub, in either case
    | Activate
    | DeleteMe

  predicate At(s: State, sub: Sub, stage: Stage) {
    sub in s.subs && s.subs[sub].stage == stage
  }

  /** A sub is completed once or deleted once, by whoever owns it; everything else the code asserts,
      or runs one behind the other. */
  predicate Enabled(s: State, step: Step) {
    match step
    case SetFinisher => s.hasGather ==> !s.deleted && !s.onfinish
    case NewSub(sub) => !s.activated && sub !in s.subs
    case Finish(sub, _) => At(s, sub, Alive)
    case LetGo(sub) => At(s, sub, Finishing)
    case Drop(sub) => At(s, sub, Alive)
    case Destruct(sub) => At(s, sub, Dying)
    case Activate => s.hasGather ==> s.finisher && !s.activated
    case DeleteMe => s.deciding > 0
  }

  /** sub_finish. */
  function SubFinished(s: State, sub: Sub, r: int): State {
    var existing := s.existing - 1;
    s.(existing := existing, owing := s.owing - {sub}, reports := s.reports + [(sub, r)],
       result := if r < 0 && s.result == 0 then r else s.result,
       deciding := if s.activated && existing == 0 then s.deciding + 1 else s.deciding)
  }

  function Moved(s: State, sub: Sub, gather: bool, stage: Stage): State {
    s.(subs := s.subs[sub := SubState(gather, stage)])
  }

  function Next(s: State, step: Step): State
    requires Enabled(s, step)
  {
    match step
    case SetFinisher => s.(finisher := true, onfinish := s.hasGather || s.onfinish)
    case NewSub(sub) =>
      var s1 := if s.hasGather then s else s.(hasGather := true, onfinish := s.finisher);
      Moved(s1, sub, true, Alive).(created := s1.created + 1, existing := s1.existing + 1, owing := s1.owing + {sub})
    case Finish(sub, r) => SubFinished(Moved(s, sub, s.subs[sub].gather, Finishing), sub, r)
    case LetGo(sub) => Moved(s, sub, false, Dying)
    case Drop(sub) => Moved(s, sub, s.subs[sub].gather, Dying)
    case Destruct(sub) =>
      var s1 := Moved(s, sub, s.subs[sub].gather, Gone);
      if s.subs[sub].gather then SubFinished(s1, sub, 0) else s1
    case Activate =>
      if !s.hasGather then s
      else s.(activated := true, deciding := if s.existing == 0 then s.deciding + 1 else s.deciding)
    case DeleteMe =>
      s.(deciding := s.deciding - 1, deleted := true, onfinish := false,
         completed := if s.onfinish then s.completed + [s.result] else s.completed)
  }

  // ------------------------------------------------------------------
  // What every step keeps

  function FirstNegative(reports: seq<(Sub, int)>): int {
    if reports == [] then 0
    else if reports[0].1 < 0 then reports[0].1
    else FirstNegative(reports[1..])
  }

  lemma {:induction false} FirstNegativeOneMore(reports: seq<(Sub, int)>, x: (Sub, int))
    ensures FirstNegative(reports + [x])
         == if FirstNegative(reports) != 0 then FirstNegative(reports) else if x.1 < 0 then x.1 else 0
  {
    if reports == [] {
      assert reports + [x] == [x];
    } else {
      assert (reports + [x])[1..] == reports[1..] + [x];
      FirstNegativeOneMore(reports[1..], x);
    }
  }

  /** Whether the sub will still call sub_finish. */
  predicate Owes(u: SubState) {
    u.stage == Alive || (u.stage == Dying && u.gather)
  }

  /** Those owe a report that have their pointer, and are not just behind sub_finish. */
  ghost predicate PointersTell(subs: map<Sub, SubState>, owing: set<Sub>) {
    && (forall sub | sub in subs && (subs[sub].stage == Alive || subs[sub].stage == Finishing) :: subs[sub].gather)
    && (forall sub | sub in owing :: sub in subs)
    && (forall sub | sub in subs :: sub in owing <==> Owes(subs[sub]))
  }

  /** Each sub that was made has reported once or still owes its report. */
  ghost predicate SubsCounted(s: State) {
    && s.existing == |s.owing|
    && s.created == |s.owing| + |s.reports|
    && (forall i | 0 <= i < |s.reports| :: s.reports[i].0 in s.subs && s.reports[i].0 !in s.owing)
    && (forall sub | sub in s.subs && sub !in s.owing :: exists i | 0 <= i < |s.reports| :: s.reports[i].0 == sub)
    && (forall i, j | 0 <= i < j < |s.reports| :: s.reports[i].0 != s.reports[j].0)
  }

  predicate Done(s: State) {
    s.activated && s.existing == 0
  }

  /** Exactly one thread runs delete_me, and only when the gather is activated and has no sub left. */
  predicate OneDeletion(s: State) {
    && s.deciding + (if s.deleted then 1 else 0) == (if Done(s) then 1 else 0)
    && s.completed == if s.deleted then [s.result] else []
  }

  predicate BuilderMatches(s: State) {
    && (s.hasGather <==> s.created > 0)
    && (s.activated ==> s.hasGather && s.finisher)
    && (s.hasGather && !s.deleted ==> s.onfinish == s.finisher)
    && (s.hasGather || !s.onfinish)
  }

  ghost predicate Inv(s: State) {
    && PointersTell(s.subs, s.owing)
    && SubsCounted(s)
    && OneDeletion(s)
    && BuilderMatches(s)
    && s.result == FirstNegative(s.reports)
  }

  lemma CountsReport(s: State, s': State, sub: Sub, r: int)
    requires SubsCounted(s) && sub in s.owing && sub in s.subs
    requires s'.owing == s.owing - {sub} && s'.reports == s.reports + [(sub, r)] && s'.subs.Keys == s.subs.Keys
    requires s'.existing == s.existing - 1 && s'.created == s.created
    ensures SubsCounted(s')
  {
    forall x | x in s'.subs && x !in s'.owing ensures exists i | 0 <= i < |s'.reports| :: s'.reports[i].0 == x {
      if x == sub {
        assert s'.reports[|s.reports|].0 == x;
      } else {
        var i :| 0 <= i < |s.reports| && s.reports[i].0 == x;
        assert s'.reports[i].0 == x;
      }
    }
  }

  lemma CountsStill(s: State, s': State)
    requires SubsCounted(s) && s'.owing == s.owing && s'.reports == s.reports && s'.subs.Keys == s.subs.Keys
    requires s'.existing == s.existing && s'.created == s.created
    ensures SubsCounted(s')
  {
  }

  lemma CountsNewSub(s: State, sub: Sub)
    requires SubsCounted(s) && PointersTell(s.subs, s.owing) && Enabled(s, NewSub(sub))
    ensures SubsCounted(Next(s, NewSub(sub)))
  {
    assert sub !in s.owing;
  }

  /** The steps that call sub_finish. */
  predicate Reporting(s: State, step: Step) {
    step.Finish? || (step.Destruct? && step.sub in s.subs && s.subs[step.sub].gather)
  }

  function Result(step: Step): int {
    if step.Finish? then step.r else 0
  }

  /** One sub moves on, and owes a report afterwards or not. */
  lemma PointersAfter(subs: map<Sub, SubState>, owing: set<Sub>, sub: Sub, u: SubState)
    requires PointersTell(subs, owing) && (u.stage == Alive || u.stage == Finishing ==> u.gather)
    ensures PointersTell(subs[sub := u], if Owes(u) then owing + {sub} else owing - {sub})
  {
  }

  lemma WhoOwes(s: State, step: Step)
    requires PointersTell(s.subs, s.owing) && Enabled(s, step)
    ensures step.Finish? || step.Drop? || (step.Destruct? && s.subs[step.sub].gather) ==> step.sub in s.owing
    ensures step.LetGo? || (step.Destruct? && !s.subs[step.sub].gather) ==> step.sub !in s.owing
    ensures step.Finish? || step.Drop? ==> s.subs[step.sub].gather
  {
  }

  lemma KeepsReport(s: State, step: Step)
    requires Inv(s) && Enabled(s, step) && Reporting(s, step)
    ensures Inv(Next(s, step))
  {
    hide FirstNegative, SubsCounted, PointersTell;
    WhoOwes(s, step);
    PointersAfter(s.subs, s.owing, step.sub, Next(s, step).subs[step.sub]);
    FirstNegativeOneMore(s.reports, (step.sub, Result(step)));
    OwesOne(s, step.sub);
    CountsReport(s, Next(s, step), step.sub, Result(step));
  }

  lemma OwesOne(s: State, sub: Sub)
    requires SubsCounted(s) && sub in s.owing
    ensures s.existing > 0
  {
  }

  lemma KeepsMove(s: State, step: Step)
    requires Inv(s) && Enabled(s, step) && !Reporting(s, step) && (step.LetGo? || step.Drop? || step.Destruct?)
    ensures Inv(Next(s, step))
  {
    hide FirstNegative, SubsCounted, PointersTell;
    WhoOwes(s, step);
    var u := Next(s, step).subs[step.sub];
    PointersAfter(s.subs, s.owing, step.sub, u);
    assert s.owing == if Owes(u) then s.owing + {step.sub} else s.owing - {step.sub};
    CountsStill(s, Next(s, step));
  }

  lemma KeepsNewSub(s: State, sub: Sub)
    requires Inv(s) && Enabled(s, NewSub(sub))
    ensures Inv(Next(s, NewSub(sub)))
  {
    hide FirstNegative, SubsCounted, PointersTell;
    CountsNewSub(s, sub);
    PointersAfter(s.subs, s.owing, sub, SubState(true, Alive));
  }

  lemma KeepsGather(s: State, step: Step)
    requires Inv(s) && Enabled(s, step) && (step.SetFinisher? || step.Activate? || step.DeleteMe?)
    ensures Inv(Next(s, step))
  {
    hide FirstNegative, SubsCounted, PointersTell;
    CountsStill(s, Next(s, step));
  }

  lemma Keeps(s: State, step: Step)
    requires Inv(s) && Enabled(s, step)
    ensures Inv(Next(s, step))
  {
    hide Inv, Next;
    match step {
      case NewSub(sub) => KeepsNewSub(s, sub);
      case Finish(_, _) => KeepsReport(s, step);
      case Destruct(_) => if Reporting(s, step) { KeepsReport(s, step); } else { KeepsMove(s, step); }
      case LetGo(_) => KeepsMove(s, step);
      case Drop(_) => KeepsMove(s, step);
      case _ => KeepsGather(s, step);
    }
  }

  // ------------------------------------------------------------------
  // Whole runs

  function Fresh(finisher: bool): State {
    State(false, finisher, 0, false, 0, 0, false, map[], 0, false, {}, [], [])
  }

  ghost predicate Run(states: seq<State>, steps: seq<Step>) {
    && |states| == |steps| + 1
    && (exists finisher :: states[0] == Fresh(finisher))
    && forall i | 0 <= i < |steps| :: Enabled(states[i], steps[i]) && states[i + 1] == Next(states[i], steps[i])
  }

  lemma {:induction false} RunKeeps(states: seq<State>, steps: seq<Step>, k: nat)
    requires Run(states, steps) && k < |states|
    ensures Inv(states[k])
  {
    hide Next, Enabled;
    if k > 0 {
      RunKeeps(states, steps, k - 1);
      Keeps(states[k - 1], steps[k - 1]);
    }
  }

  /** How often a sub has reported. */
  function Count(reports: seq<(Sub, int)>, sub: Sub): nat {
    if reports == [] then 0 else (if reports[0].0 == sub then 1 else 0) + Count(reports[1..], sub)
  }

  lemma {:induction false} CountIs(reports: seq<(Sub, int)>, sub: Sub)
    requires forall i, j | 0 <= i < j < |reports| :: reports[i].0 != reports[j].0
    ensures Count(reports, sub) == if exists i | 0 <= i < |reports| :: reports[i].0 == sub then 1 else 0
    decreases |reports|
  {
    if reports != [] {
      CountIs(reports[1..], sub);
      assert forall i | 1 <= i < |reports| :: reports[i] == reports[1..][i - 1];
    }
  }

  /** In every run a sub reports exactly once, whether it is completed or deleted unfinished: never
      before, and not again when complete() goes on to destroy it, because finish() cleared its pointer. */
  lemma EachReportsOnce(states: seq<State>, steps: seq<Step>, k: nat, sub: Sub)
    requires Run(states, steps) && k < |states| && sub in states[k].subs
    ensures Count(states[k].reports, sub) == if Owes(states[k].subs[sub]) then 0 else 1
    ensures states[k].subs[sub].stage == Gone ==> Count(states[k].reports, sub) == 1
  {
    RunKeeps(states, steps, k);
    CountIs(states[k].reports, sub);
  }

  /** What a sub reports is what it was completed with, or 0 if it was deleted unfinished, and it
      stands in the history for good. */
  lemma {:induction false} ReportIsKept(states: seq<State>, steps: seq<Step>, i: nat, k: nat)
    requires Run(states, steps) && i < k < |states| && Reporting(states[i], steps[i])
    ensures (steps[i].sub, Result(steps[i])) in states[k].reports
    decreases k
  {
    hide Next, Enabled, Reporting, Result;
    if k == i + 1 {
      ReportMade(states[i], steps[i]);
    } else {
      ReportIsKept(states, steps, i, k - 1);
      ReportsGrow(states[k - 1], steps[k - 1]);
    }
  }

  lemma ReportMade(s: State, step: Step)
    requires Enabled(s, step) && Reporting(s, step)
    ensures (step.sub, Result(step)) in Next(s, step).reports
  {
  }

  lemma ReportsGrow(s: State, step: Step)
    requires Enabled(s, step)
    ensures s.reports <= Next(s, step).reports
  {
    hide Enabled;
    assert forall x: (Sub, int) :: s.reports <= s.reports + [x];
  }

  // ------------------------------------------------------------------
  // What the steps say

  predicate OfSub(step: Step, sub: Sub) {
    (step.NewSub? || step.Finish? || step.LetGo? || step.Drop? || step.Destruct?) && step.sub == sub
  }

  /** The last step of a sub's life. */
  function LastOf(steps: seq<Step>, sub: Sub): (last: Option<Step>)
    ensures last.Some? ==> OfSub(last.value, sub)
  {
    if steps == [] then None
    else if OfSub(steps[|steps| - 1], sub) then Some(steps[|steps| - 1])
    else LastOf(steps[..|steps| - 1], sub)
  }

  /** Where a sub stands behind that step. */
  predicate StandsAs(subs: map<Sub, SubState>, sub: Sub, last: Option<Step>) {
    match last
    case None => sub !in subs
    case Some(step) =>
      && sub in subs
      && match step
         case NewSub(_) => subs[sub] == SubState(true, Alive)
         case Finish(_, _) => subs[sub] == SubState(true, Finishing)
         case LetGo(_) => subs[sub] == SubState(false, Dying)
         case Drop(_) => subs[sub] == SubState(true, Dying)
         case _ => subs[sub].stage == Gone
  }

  lemma SubMoves(s: State, step: Step, sub: Sub, last: Option<Step>)
    requires Enabled(s, step) && StandsAs(s.subs, sub, last)
    ensures StandsAs(Next(s, step).subs, sub, if OfSub(step, sub) then Some(step) else last)
  {
    if OfSub(step, sub) {
      SubSteps(s, step);
    } else {
      OthersStay(s, step, sub);
      hide Next, Enabled;
    }
  }

  lemma SubSteps(s: State, step: Step)
    requires Enabled(s, step) && (step.NewSub? || step.Finish? || step.LetGo? || step.Drop? || step.Destruct?)
    requires (step.Finish? || step.Drop?) && step.sub in s.subs ==> s.subs[step.sub].gather
    ensures StandsAs(Next(s, step).subs, step.sub, Some(step))
  {
  }

  lemma OthersStay(s: State, step: Step, sub: Sub)
    requires Enabled(s, step) && !OfSub(step, sub)
    ensures sub in Next(s, step).subs <==> sub in s.subs
    ensures sub in s.subs ==> Next(s, step).subs[sub] == s.subs[sub]
  {
    OneSubChanges(s, step);
    hide Next, Enabled;
  }

  lemma OneSubChanges(s: State, step: Step)
    requires Enabled(s, step)
    ensures if step.NewSub? || step.Finish? || step.LetGo? || step.Drop? || step.Destruct?
            then step.sub in Next(s, step).subs && Next(s, step).subs == s.subs[step.sub := Next(s, step).subs[step.sub]]
            else Next(s, step).subs == s.subs
  {
  }

  lemma {:induction false} SubsFollowSteps(states: seq<State>, steps: seq<Step>, k: nat, sub: Sub)
    requires Run(states, steps) && k <= |steps|
    ensures StandsAs(states[k].subs, sub, LastOf(steps[..k], sub))
  {
    hide Next, Enabled, StandsAs;
    if k == 0 {
      NoSubsYet(states, steps, sub);
    } else {
      SubsFollowSteps(states, steps, k - 1, sub);
      assert steps[..k][..k - 1] == steps[..k - 1];
      SubMoves(states[k - 1], steps[k - 1], sub, LastOf(steps[..k - 1], sub));
    }
  }

  lemma NoSubsYet(states: seq<State>, steps: seq<Step>, sub: Sub)
    requires Run(states, steps)
    ensures StandsAs(states[0].subs, sub, None)
  {
  }

  /** What is reported, and in which order: the result each sub is completed with, and 0 for one that is
      destroyed after it was dropped. */
  function Reports(steps: seq<Step>): seq<(Sub, int)> {
    if steps == [] then []
    else
      var before, step := steps[..|steps| - 1], steps[|steps| - 1];
      Reports(before)
      + match step
        case Finish(sub, r) => [(sub, r)]
        case Destruct(sub) => if LastOf(before, sub) == Some(Drop(sub)) then [(sub, 0)] else []
        case _ => []
  }

  lemma {:induction false} ReportsFollowSteps(states: seq<State>, steps: seq<Step>, k: nat)
    requires Run(states, steps) && k <= |steps|
    ensures states[k].reports == Reports(steps[..k])
  {
    hide Next, LastOf, StandsAs;
    if k > 0 {
      ReportsFollowSteps(states, steps, k - 1);
      assert steps[..k][..k - 1] == steps[..k - 1];
      var s, step := states[k - 1], steps[k - 1];
      if step.Destruct? {
        SubsFollowSteps(states, steps, k - 1, step.sub);
        DroppedOrNot(s, step.sub, LastOf(steps[..k - 1], step.sub));
      }
      StepReports(s, step);
      NothingMore(s.reports);
    }
  }

  lemma NothingMore(reports: seq<(Sub, int)>)
    ensures reports + [] == reports
  {
  }

  lemma DroppedOrNot(s: State, sub: Sub, last: Option<Step>)
    requires StandsAs(s.subs, sub, last) && At(s, sub, Dying)
    requires last.Some? ==> OfSub(last.value, sub)
    ensures s.subs[sub].gather <==> last == Some(Drop(sub))
  {
  }

  lemma StepReports(s: State, step: Step)
    requires Enabled(s, step)
    ensures Next(s, step).reports == s.reports + if Reporting(s, step) then [(step.sub, Result(step))] else []
  {
    NothingMore(s.reports);
  }

  /** How many subs were made. */
  function NewSubs(steps: seq<Step>): nat {
    if steps == [] then 0 else NewSubs(steps[..|steps| - 1]) + if steps[|steps| - 1].NewSub? then 1 else 0
  }

  /** activate() was called when there was a sub. */
  ghost predicate Activated(steps: seq<Step>) {
    exists i | 0 <= i < |steps| :: steps[i] == Activate && NewSubs(steps[..i]) > 0
  }

  lemma {:induction false} GatherFollowsSteps(states: seq<State>, steps: seq<Step>, k: nat)
    requires Run(states, steps) && k <= |steps|
    ensures var s := states[k];
            && s.created == NewSubs(steps[..k])
            && (s.finisher <==> states[0].finisher || SetFinisher in steps[..k])
            && (s.activated <==> Activated(steps[..k]))
            && (s.deleted <==> DeleteMe in steps[..k])
  {
    hide Next, Enabled;
    if k > 0 {
      GatherFollowsSteps(states, steps, k - 1);
      RunKeeps(states, steps, k - 1);
      hide Inv;
      StepOfGather(states[k - 1], steps[k - 1]);
      ActivatedMore(steps, k - 1);
      assert steps[..k] == steps[..k - 1] + [steps[k - 1]];
      assert steps[..k][..k - 1] == steps[..k - 1];
    }
  }

  lemma ActivatedMore(steps: seq<Step>, k: nat)
    requires k < |steps|
    ensures Activated(steps[..k + 1]) <==> Activated(steps[..k]) || (steps[k] == Activate && NewSubs(steps[..k]) > 0)
  {
    hide NewSubs;
    var a, b := steps[..k], steps[..k + 1];
    assert forall i | 0 <= i < k :: b[i] == a[i] && b[..i] == a[..i];
    assert b[k] == steps[k] && b[..k] == a;
  }

  lemma StepOfGather(s: State, step: Step)
    requires Inv(s) && Enabled(s, step)
    ensures var s' := Next(s, step);
            && s'.created == s.created + (if step.NewSub? then 1 else 0)
            && (s'.finisher <==> s.finisher || step == SetFinisher)
            && (s'.activated <==> s.activated || (step == Activate && s.created > 0))
            && (s'.deleted <==> s.deleted || step == DeleteMe)
  {
    hide PointersTell, SubsCounted, FirstNegative;
  }

  /** In every run the finisher is completed exactly by delete_me, at most once, after an activate() with
      subs, when every sub made has reported, and with the first error any sub reported. */
  lemma CompletedOnce(states: seq<State>, steps: seq<Step>, k: nat)
    requires Run(states, steps) && k <= |steps|
    ensures var done := states[k].completed;
            && (done != [] <==> DeleteMe in steps[..k])
            && (done != [] ==>
                  && Activated(steps[..k])
                  && |Reports(steps[..k])| == NewSubs(steps[..k]) > 0
                  && (forall sub | LastOf(steps[..k], sub).Some? :: Count(Reports(steps[..k]), sub) == 1)
                  && done == [FirstNegative(Reports(steps[..k]))])
  {
    hide FirstNegative, Next, Enabled, Count, Activated, Reports, NewSubs, LastOf;
    RunKeeps(states, steps, k);
    GatherFollowsSteps(states, steps, k);
    ReportsFollowSteps(states, steps, k);
    if states[k].completed != [] {
      forall sub | LastOf(steps[..k], sub).Some? ensures Count(Reports(steps[..k]), sub) == 1 {
        SubsFollowSteps(states, steps, k, sub);
        EachReportsOnce(states, steps, k, sub);
      }
    }
  }

  /** The documentation allows a builder with no subs, but then the finisher is never completed:
      once everything has settled, it has been completed if and only if a sub was made. */
  lemma CompletedIffSubs(states: seq<State>, steps: seq<Step>, k: nat)
    requires Run(states, steps) && k < |states|
    requires states[k].hasGather ==> states[k].activated
    requires states[k].deciding == 0 && forall sub | sub in states[k].subs :: states[k].subs[sub].stage == Gone
    ensures states[k].completed != [] <==> states[k].created > 0
  {
    hide FirstNegative, Next, Enabled;
    RunKeeps(states, steps, k);
    assert states[k].owing == {};
  }

  /** A builder given a finisher and activated without subs: nothing happens, and the finisher is not
      completed; but subs may still be made afterwards. */
  lemma NoSubsNoCompletion(sub: Sub)
    ensures Enabled(Fresh(true), Activate)
    ensures var s := Next(Fresh(true), Activate); s == Fresh(true) && s.completed == [] && Enabled(s, NewSub(sub))
  {
  }

  lemma NextNewSub(s: State, sub: Sub)
    requires Enabled(s, NewSub(sub))
    ensures Next(s, NewSub(sub))
         == State(true, s.finisher, s.result, if s.hasGather then s.onfinish else s.finisher, s.created + 1, s.existing + 1,
                  s.activated, s.subs[sub := SubState(true, Alive)], s.deciding, s.deleted, s.owing + {sub}, s.reports,
                  s.completed)
  {
  }

  // ------------------------------------------------------------------
  // The class

  /** A builder, the gather it makes and the gather's subs. */
  class GatherBuilder {
    var hasGather: bool
    var finisher: bool
    var result: int
    var onfinish: bool
    var created: nat
    var existing: int
    var activated: bool
    var subs: map<Sub, SubState>
    var deciding: nat
    var deleted: bool
    ghost var owing: set<Sub>
    ghost var reports: seq<(Sub, int)>
    ghost var completed: seq<int>

    ghost function Now(): State
      reads this
    {
      State(hasGather, finisher, result, onfinish, created, existing, activated, subs, deciding, deleted,
            owing, reports, completed)
    }

    constructor (finisher: bool)
      ensures Now() == Fresh(finisher) && Inv(Now())
    {
      this.finisher := finisher;
      hasGather, result, onfinish, created, existing, activated := false, 0, false, 0, 0, false;
      subs, deciding, deleted, owing, reports, completed := map[], 0, false, {}, [], [];
    }

    method Finisher()
      requires Inv(Now()) && Enabled(Now(), SetFinisher)
      modifies this
      ensures Now() == Next(old(Now()), SetFinisher) && Inv(Now())
    {
      hide Inv;
      Keeps(Now(), SetFinisher);
      finisher := true;
      if hasGather {
        onfinish := true;
      }
    }

    method MakeSub(sub: Sub)
      requires Inv(Now()) && Enabled(Now(), NewSub(sub))
      modifies this
      ensures Now() == Next(old(Now()), NewSub(sub)) && Inv(Now())
    {
      hide Inv, Next, Enabled;
      Keeps(Now(), NewSub(sub));
      NextNewSub(Now(), sub);
      if !hasGather {
        hasGather, onfinish := true, finisher;
      }
      created, existing := created + 1, existing + 1;
      subs, owing := subs[sub := SubState(true, Alive)], owing + {sub};
    }

    /** sub_finish; `last` when the caller is to run delete_me. */
    method SubFinish(sub: Sub, r: int) returns (last: bool)
      modifies this
      ensures Now() == SubFinished(old(Now()), sub, r) && (last <==> activated && existing == 0)
    {
      existing := existing - 1;
      owing, reports := owing - {sub}, reports + [(sub, r)];
      if r < 0 && result == 0 {
        result := r;
      }
      if !activated || existing != 0 {
        return false;
      }
      deciding := deciding + 1;
      return true;
    }

    /** C_GatherSub::finish up to the end of sub_finish. */
    method FinishSub(sub: Sub, r: int) returns (last: bool)
      requires Inv(Now()) && Enabled(Now(), Finish(sub, r))
      modifies this
      ensures Now() == Next(old(Now()), Finish(sub, r)) && Inv(Now()) && (last <==> Done(Now()))
    {
      hide Inv;
      Keeps(Now(), Finish(sub, r));
      subs := subs[sub := subs[sub].(stage := Finishing)];
      last := SubFinish(sub, r);
    }

    /** `gather = 0`, after which complete() deletes the sub. */
    method ForgetGather(sub: Sub)
      requires Inv(Now()) && Enabled(Now(), LetGo(sub))
      modifies this
      ensures Now() == Next(old(Now()), LetGo(sub)) && Inv(Now())
    {
      hide Inv;
      Keeps(Now(), LetGo(sub));
      subs := subs[sub := SubState(false, Dying)];
    }

    /** ~C_GatherSub. */
    method DestroySub(sub: Sub) returns (last: bool)
      requires Inv(Now()) && Enabled(Now(), Destruct(sub))
      modifies this
      ensures Now() == Next(old(Now()), Destruct(sub)) && Inv(Now())
      ensures last <==> |reports| > |old(reports)| && Done(Now())
    {
      hide Inv;
      Keeps(Now(), Destruct(sub));
      var gather := subs[sub].gather;
      subs := subs[sub := subs[sub].(stage := Gone)];
      last := false;
      if gather {
        last := SubFinish(sub, 0);
      }
    }

    method Start() returns (last: bool)
      requires Inv(Now()) && Enabled(Now(), Activate)
      modifies this
      ensures Now() == Next(old(Now()), Activate) && Inv(Now()) && (last <==> hasGather && existing == 0)
    {
      hide Inv;
      Keeps(Now(), Activate);
      if !hasGather {
        return false;
      }
      activated := true;
      if existing != 0 {
        return false;
      }
      deciding := deciding + 1;
      return true;
    }

    method Delete()
      requires Inv(Now()) && Enabled(Now(), DeleteMe)
      modifies this
      ensures Now() == Next(old(Now()), DeleteMe) && Inv(Now())
    {
      hide Inv;
      Keeps(Now(), DeleteMe);
      if onfinish {
        completed := completed + [result];
        onfinish := false;
      }
      deciding := deciding - 1;
      deleted := true;
    }
  }
}
