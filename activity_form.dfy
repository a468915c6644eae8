/** The form that logs a new activity: field-by-field edits, then a submit
    that checks the two required fields and coerces the numbers. */
module ActivityForm {
  import opened Js

  /** The inputs of the form, named as their `name` attributes (`Kind` is `type`). */
  datatype Field = Kind | Intensity | Name | Duration | Calories | Date | Notes

  /** What a submit hands to the dashboard: the form's fields with `duration`
      parsed and `calories` parsed or 0. `date` is there only once the date
      input has reported a change. */
  datatype ActivityDraft = ActivityDraft(
    kind: string, intensity: string, name: string, duration: Num,
    calories: int, notes: string, date: Option<string>)

  /** The state a fresh form starts in; the date input is not in it. */
  function InitialFields(): map<Field, string> {
    map[Kind := "cardio", Name := "", Duration := "", Calories := "", Notes := "", Intensity := "medium"]
  }

  /** The six fields the initial state holds, which edits never take away. */
  predicate HasFormFields(f: map<Field, string>) {
    Kind in f && Intensity in f && Name in f && Duration in f && Calories in f && Notes in f
  }

  class ActivityForm {
    var formData: map<Field, string>

    ghost predicate Valid()
      reads this
    {
      HasFormFields(formData)
    }

    constructor ()
      ensures Valid() && formData == InitialFields()
      ensures Date !in formData
    {
      formData := InitialFields();
    }

    /** `handleChange`: the named field takes the new value; every other field
        keeps its value, and no field appears or disappears but the named one. */
    method HandleChange(field: Field, value: string)
      requires Valid()
      modifies this
      ensures Valid()
      ensures formData == old(formData)[field := value]
      ensures forall f :: f != field ==> (f in formData <==> f in old(formData))
      ensures forall f :: f != field && f in formData ==> formData[f] == old(formData)[f]
    {
      formData := formData[field := value];
    }
  }

  /** `parseInt(calories) || 0`: NaN and zero both fall back to 0. */
  function CaloriesOrZero(n: Num): (c: int)
    ensures n.NaN? ==> c == 0
    ensures n.Int? ==> c == n.v
  {
    if n.NaN? then 0 else n.v
  }

  /** `handleSubmit`: `None` is the alert path, on which nothing is submitted. */
  function Submit(f: map<Field, string>): (r: Option<ActivityDraft>)
    requires HasFormFields(f)
    ensures r.None? <==> f[Name] == "" || f[Duration] == ""
    ensures r.Some? ==> r.value.duration == ParseInt(f[Duration])
    ensures r.Some? ==> r.value.calories == CaloriesOrZero(ParseInt(f[Calories]))
    ensures r.Some? ==> r.value.kind == f[Kind] && r.value.intensity == f[Intensity]
                        && r.value.name == f[Name] && r.value.notes == f[Notes]
    ensures r.Some? ==> (r.value.date.Some? <==> Date in f)
  {
    if f[Name] == "" || f[Duration] == "" then None
    else
      Some(ActivityDraft(
        f[Kind], f[Intensity], f[Name], ParseInt(f[Duration]),
        CaloriesOrZero(ParseInt(f[Calories])), f[Notes],
        if Date in f then Some(f[Date]) else None))
  }

  /** Only emptiness is checked: any integer typed as the duration, zero and
      negatives included, is submitted as that integer. */
  lemma SubmitAcceptsAnyDuration(f: map<Field, string>, n: int)
    requires HasFormFields(f) && f[Name] != ""
    ensures var r := Submit(f[Duration := DecimalString(n)]);
      r.Some? && r.value.duration == Int(n)
  {
    var g := f[Duration := DecimalString(n)];
    DigitsWellFormed(if n < 0 then -n else n);
    assert g[Duration] != "";
    ParseIntOfDecimalString(n);
  }

  /** An empty calories field is submitted as 0. */
  lemma SubmitEmptyCaloriesIsZero(f: map<Field, string>)
    requires HasFormFields(f) && f[Name] != "" && f[Duration] != "" && f[Calories] == ""
    ensures Submit(f).Some? && Submit(f).value.calories == 0
  {
  }
}
