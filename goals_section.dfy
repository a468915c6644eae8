/** The goals panel: the new-goal form with its submit and reset, the
    progress prompt, and the display arithmetic of each goal (percentage,
    bar width and border colour band). */
module GoalsSection {
  import opened Js
  import opened Entities

  datatype Field = Title | Description | Kind | Target | Unit | Deadline

  /** The form's state (`kind` is the source's `type`). */
  datatype GoalForm = GoalForm(
    title: string, description: string, kind: string,
    target: string, unit: string, deadline: string)

  /** The form's initial state, to which an accepted submit returns. */
  const InitialForm: GoalForm := GoalForm("", "", "workout", "", "times", "")

  /** What a submit hands to the dashboard: the form with `target` parsed. */
  datatype GoalDraft = GoalDraft(
    title: string, description: string, kind: string,
    target: Num, unit: string, deadline: string)

  /** `{ ...formData, [name]: value }`. */
  function WithField(f: GoalForm, field: Field, value: string): GoalForm {
    match field
    case Title => f.(title := value)
    case Description => f.(description := value)
    case Kind => f.(kind := value)
    case Target => f.(target := value)
    case Unit => f.(unit := value)
    case Deadline => f.(deadline := value)
  }

  function FieldValue(f: GoalForm, field: Field): string {
    match field
    case Title => f.title
    case Description => f.description
    case Kind => f.kind
    case Target => f.target
    case Unit => f.unit
    case Deadline => f.deadline
  }

  /** An edit changes the named field and no other. */
  lemma WithFieldChangesOnlyThatField(f: GoalForm, field: Field, value: string, other: Field)
    ensures FieldValue(WithField(f, field, value), field) == value
    ensures other != field ==> FieldValue(WithField(f, field, value), other) == FieldValue(f, other)
  {
  }

  /** The draft an accepted submit passes on; `None` when the title or the
      target is empty (the alert path). Nothing but emptiness is checked. */
  function Draft(f: GoalForm): (r: Option<GoalDraft>)
    ensures r.None? <==> f.title == "" || f.target == ""
    ensures r.Some? ==> r.value.target == ParseInt(f.target)
    ensures r.Some? ==> r.value.title == f.title && r.value.description == f.description
                        && r.value.kind == f.kind && r.value.unit == f.unit
                        && r.value.deadline == f.deadline
  {
    if f.title == "" || f.target == "" then None
    else Some(GoalDraft(f.title, f.description, f.kind, ParseInt(f.target), f.unit, f.deadline))
  }

  /** A target of "0" is accepted and becomes the target 0. */
  lemma ZeroTargetAccepted(f: GoalForm)
    requires f.title != "" && f.target == "0"
    ensures Draft(f) == Some(GoalDraft(f.title, f.description, f.kind, Int(0), f.unit, f.deadline))
  {
    ParseIntOfDecimalString(0);
  }

  class GoalsSection {
    var showForm: bool
    var formData: GoalForm

    constructor ()
      ensures !showForm && formData == InitialForm
    {
      showForm := false;
      formData := InitialForm;
    }

    /** The "Add New Goal" button. */
    method OpenForm()
      modifies this
      ensures showForm && formData == old(formData)
    {
      showForm := true;
    }

    /** The "Cancel" button: closes the form and keeps what was typed. */
    method CancelForm()
      modifies this
      ensures !showForm && formData == old(formData)
    {
      showForm := false;
    }

    method HandleChange(field: Field, value: string)
      modifies this
      ensures formData == WithField(old(formData), field, value)
      ensures showForm == old(showForm)
    {
      formData := WithField(formData, field, value);
    }

    /** `handleSubmit`: a rejected submit changes nothing and leaves the form
        open; an accepted one returns the draft, resets the form and closes it. */
    method HandleSubmit() returns (added: Option<GoalDraft>)
      modifies this
      ensures added == Draft(old(formData))
      ensures added.None? ==> formData == old(formData) && showForm == old(showForm)
      ensures added.Some? ==> formData == InitialForm && !showForm
    {
      if formData.title == "" || formData.target == "" {
        return None;
      }
      added := Some(GoalDraft(formData.title, formData.description, formData.kind,
                              ParseInt(formData.target), formData.unit, formData.deadline));
      formData := InitialForm;
      showForm := false;
    }
  }

  /** What the "Update Progress" button leads to: no call, a call of
      `onUpdate(goalId, { progress })`, or a thrown ReferenceError. */
  datatype ProgressOutcome = NoUpdate | Update(goalId: string, progress: Num) | ReferenceError

  /** `handleUpdateProgress` as written: `answer` is what `prompt` returned
      (`None` for Cancel). The capping expression names `goal`, which is not in
      scope there, so evaluating it throws. */
  function UpdateProgressAsWritten(goalId: string, answer: Option<string>): (r: ProgressOutcome)
    ensures r.NoUpdate? <==> answer.None? || ParseInt(answer.value).NaN?
  {
    if answer.None? then NoUpdate
    else if ParseInt(answer.value).NaN? then NoUpdate
    else ReferenceError
  }

  /** As written, a numeric answer never reaches `onUpdate`: entering 7 throws. */
  lemma AsWrittenNeverRecordsProgress(goalId: string, answer: Option<string>)
    ensures !UpdateProgressAsWritten(goalId, answer).Update?
    ensures UpdateProgressAsWritten(goalId, Some("7")) == ReferenceError
  {
    ParseIntOfDecimalString(7);
    assert DecimalString(7) == "7";
  }

  /** The first goal with the given id. */
  function FindGoal(goals: seq<Goal>, goalId: string): (r: Option<Goal>)
    ensures r.Some? ==> r.value in goals && r.value.id == goalId
    ensures r.None? ==> forall i :: 0 <= i < |goals| ==> goals[i].id != goalId
  {
    if goals == [] then None
    else if goals[0].id == goalId then Some(goals[0])
    else FindGoal(goals[1..], goalId)
  }

  /** `handleUpdateProgress` as intended: the entered value capped at the
      target of the goal whose button was pressed (looked up by id among the
      goals shown). There is no lower bound. */
  function UpdateProgress(goals: seq<Goal>, goalId: string, answer: Option<string>): (r: ProgressOutcome)
    ensures !r.ReferenceError?
    ensures r.NoUpdate? <==> answer.None? || ParseInt(answer.value).NaN? || FindGoal(goals, goalId).None?
    ensures r.Update? ==>
      r.goalId == goalId && r.progress == Min(ParseInt(answer.value), FindGoal(goals, goalId).value.target)
  {
    if answer.None? then NoUpdate
    else
      var p := ParseInt(answer.value);
      if p.NaN? then NoUpdate
      else match FindGoal(goals, goalId)
        case None => NoUpdate
        case Some(g) => Update(goalId, Min(p, g.target))
  }

  /** The progress written never exceeds the goal's target, and equals the
      entered value whenever that is within the target. */
  lemma UpdateProgressCapped(goals: seq<Goal>, goalId: string, answer: Option<string>)
    requires UpdateProgress(goals, goalId, answer).Update?
    requires FindGoal(goals, goalId).value.target.Int?
    ensures var r := UpdateProgress(goals, goalId, answer);
      var t := FindGoal(goals, goalId).value.target.v;
      var p := ParseInt(answer.value).v;
      r.progress.Int? && r.progress.v <= t && (p <= t ==> r.progress.v == p)
  {
  }

  /** There is no lower clamp: entering a negative number records it. */
  lemma UpdateProgressKeepsNegatives(goals: seq<Goal>, goalId: string, n: int)
    requires n < 0
    requires FindGoal(goals, goalId).Some? && AtLeast(FindGoal(goals, goalId).value.target, Int(0))
    ensures UpdateProgress(goals, goalId, Some(DecimalString(n))) == Update(goalId, Int(n))
  {
    ParseIntOfDecimalString(n);
  }

  /** What a number turns into when shown: `Math.round` keeps NaN and the
      infinities as they are. */
  datatype Shown = Finite(n: int) | NotANumber | Infinity(positive: bool)

  /** `Math.round((progress / target) * 100)`, the percentage beside the bar. */
  function Percent(progress: Num, target: Num): (r: Shown)
    ensures (progress.NaN? || target.NaN?) ==> r.NotANumber?
    ensures progress.Int? && target.Int? && target.v != 0 ==> r.Finite?
  {
    if progress.NaN? || target.NaN? then NotANumber
    else if target.v == 0 then
      (if progress.v == 0 then NotANumber else Infinity(progress.v > 0))
    else if target.v > 0 then Finite(RoundQuotient(100 * progress.v, target.v))
    else Finite(RoundQuotient(-100 * progress.v, -target.v))
  }

  /** The percentage of a positive target lies in [0, 100] while the progress
      does, reads 100 exactly at the target, and is the nearest integer to
      100 * progress / target. */
  lemma PercentOfPositiveTarget(p: int, t: int)
    requires t > 0
    ensures Percent(Int(p), Int(t)).Finite?
    ensures var n := Percent(Int(p), Int(t)).n;
      2 * t * n <= 2 * (100 * p) + t < 2 * t * n + 2 * t
    ensures 0 <= p <= t ==> 0 <= Percent(Int(p), Int(t)).n <= 100
    ensures p >= t ==> Percent(Int(p), Int(t)).n >= 100
    ensures p == t ==> Percent(Int(p), Int(t)).n == 100
  {
    var n := RoundQuotient(100 * p, t);
    var m := 2 * t;
    assert m * n + m == m * (n + 1);
    if 0 <= p <= t {
      MulMonotone(m, n, 101);
      MulMonotone(m, 0, n + 1);
    }
    if p >= t {
      MulMonotone(m, 100, n + 1);
    }
  }

  /** The four colours of the goal card's left border. */
  datatype Band = Complete | High | Middle | Low

  /** How far up the bands a band is. */
  function BandRank(b: Band): nat {
    match b
    case Low => 0
    case Middle => 1
    case High => 2
    case Complete => 3
  }

  /** The border band of a value: at least 100, at least 75, at least 50,
      otherwise the lowest; NaN compares false everywhere and lands lowest. */
  function BandOf(x: Num): (b: Band)
    ensures b == Complete <==> AtLeast(x, Int(100))
    ensures b == High <==> AtLeast(x, Int(75)) && Less(x, Int(100))
    ensures b == Middle <==> AtLeast(x, Int(50)) && Less(x, Int(75))
    ensures b == Low <==> !AtLeast(x, Int(50))
  {
    if AtLeast(x, Int(100)) then Complete
    else if AtLeast(x, Int(75)) then High
    else if AtLeast(x, Int(50)) then Middle
    else Low
  }

  /** A larger value never shows a lower band. */
  lemma BandMonotone(x: int, y: int)
    requires x <= y
    ensures BandRank(BandOf(Int(x))) <= BandRank(BandOf(Int(y)))
  {
  }

  /** `Math.min(value, 100)`, the bar's width in percent. */
  function BarWidthOf(x: Num): (w: Num)
    ensures w.Int? <==> x.Int?
    ensures w.Int? ==> w.v <= 100 && (x.v <= 100 ==> w.v == x.v)
  {
    Min(x, Int(100))
  }

  /** The card as written: bar width and border band are computed from the
      raw progress, not from the percentage. */
  function CardAsWritten(g: Goal): (Num, Band) {
    (BarWidthOf(g.progress), BandOf(g.progress))
  }

  /** A goal of 10 times with 10 done is complete, yet its bar is a tenth
      full and its border shows the lowest band. */
  lemma CardAsWrittenMisreadsCompletion()
    ensures var g := Goal("1", "u", "Run", "", "workout", Int(10), "times", "", 0, Int(10));
      Percent(g.progress, g.target) == Finite(100)
      && CardAsWritten(g) == (Int(10), Low)
  {
    PercentOfPositiveTarget(10, 10);
  }

  /** The percentage a bar and a band are meant to read, as a number. */
  function PercentNum(progress: Num, target: Num): (r: Num)
    ensures r.Int? <==> Percent(progress, target).Finite?
    ensures r.Int? ==> r.v == Percent(progress, target).n
  {
    match Percent(progress, target)
    case Finite(n) => Int(n)
    case _ => NaN
  }

  /** The card as intended: bar width and border band follow the percentage. */
  function Card(g: Goal): (Num, Band) {
    var pct := PercentNum(g.progress, g.target);
    (BarWidthOf(pct), BandOf(pct))
  }

  /** A goal whose progress has reached a positive target shows a full bar and
      the top band; one with no progress yet shows an empty bar and the lowest band. */
  lemma CardShowsCompletion(g: Goal)
    requires g.target.Int? && g.target.v > 0 && g.progress.Int?
    ensures g.progress.v >= g.target.v ==> Card(g) == (Int(100), Complete)
    ensures g.progress.v == 0 ==> Card(g) == (Int(0), Low)
  {
    PercentOfPositiveTarget(g.progress.v, g.target.v);
  }
}
