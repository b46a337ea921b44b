/**
 * The factory-access fixtures of Meowwright/test-data/fixtures/test-data.fixture.ts:
 * `createUsers`, `createForm` (dispatch on a form-type name) and `createForms` (a loop
 * over the same dispatch).
 */
module TestDataFixture {
  import opened Wrappers
  import opened Json
  import opened Factories

  /** The form type a creator stamps for a requested type name: unknown names fall back to 'generic'. */
  function Stamped(formType: string): string
  {
    if formType in ["registration", "textBox", "webTables"] then formType else "generic"
  }

  /** The default fields of the form a creator builds for a requested type name. */
  function KindFields(formType: string, d: FormDraw): seq<Prop>
  {
    match formType
    case "registration" => RegistrationFields(d)
    case "textBox" => TextBoxFields(d)
    case "webTables" => WebTablesFields(d)
    case _ => GenericFields(d)
  }

  /** The `createForm(formType, overrides)` fixture. */
  function CreateFormOf(formType: string, overrides: Option<seq<Prop>>, d: FormDraw): (r: seq<Prop>)
    ensures WellFormedOverrides(overrides) ==>
      Lookup(r, "formType") == Expected([Prop("formType", Str(Stamped(formType)))], overrides, "formType")
    ensures WellFormedOverrides(overrides) && formType in ["registration", "textBox", "webTables"] ==>
      Lookup(r, "isRequired") == Expected([Prop("isRequired", Bool(true))], overrides, "isRequired")
    ensures WellFormedOverrides(overrides) && formType !in ["registration", "textBox", "webTables"] ==>
      Lookup(r, "isRequired") == Expected([Prop("isRequired", Bool(d.isRequired))], overrides, "isRequired")
    ensures WellFormedOverrides(overrides) ==>
      Lookup(r, "fields") == Expected([Prop("fields", Obj(KindFields(formType, d)))], overrides, "fields")
  {
    match formType
    case "registration" =>
      MergedFormRecord("registration", RegistrationFields(d), true, d, overrides);
      CreateRegistrationForm(overrides, d)
    case "textBox" =>
      MergedFormRecord("textBox", TextBoxFields(d), true, d, overrides);
      CreateTextBoxForm(overrides, d)
    case "webTables" =>
      MergedFormRecord("webTables", WebTablesFields(d), true, d, overrides);
      CreateWebTablesForm(overrides, d)
    case _ =>
      MergedFormRecord("generic", GenericFields(d), d.isRequired, d, overrides);
      CreateForm(overrides, d)
  }

  /** A merged form record reads `formType` and `isRequired` from the overrides first. */
  lemma MergedFormRecord(formType: string, fields: seq<Prop>, isRequired: bool, d: FormDraw,
                         overrides: Option<seq<Prop>>)
    ensures var r := MergeWithOverrides(FormRecord(formType, fields, isRequired, d), overrides);
      WellFormedOverrides(overrides) ==>
        && Lookup(r, "formType") == Expected([Prop("formType", Str(formType))], overrides, "formType")
        && Lookup(r, "isRequired") == Expected([Prop("isRequired", Bool(isRequired))], overrides, "isRequired")
        && Lookup(r, "fields") == Expected([Prop("fields", Obj(fields))], overrides, "fields")
  {
  }

  /**
   * The `createForms(formType, count, overrides)` fixture: `count` forms of one type, the
   * i-th built from the i-th draw. It agrees with `createMany` over the same dispatch.
   */
  method CreateForms(formType: string, count: int, overrides: Option<seq<Prop>>, draw: nat -> FormDraw)
    returns (forms: seq<seq<Prop>>)
    ensures |forms| == if count < 0 then 0 else count
    ensures forall i :: 0 <= i < |forms| ==> forms[i] == CreateFormOf(formType, overrides, draw(i))
    ensures forms == CreateMany(count, i => CreateFormOf(formType, overrides, draw(i)))
  {
    forms := PushEach(count, (j: nat) => CreateFormOf(formType, overrides, draw(j)));
    var many := CreateMany(count, i => CreateFormOf(formType, overrides, draw(i)));
    assert forall j :: 0 <= j < |many| ==> many[j] == forms[j];
  }

  /** The loop `for (let i = 0; i < count; i++) out.push(make(i))`. */
  method PushEach<T>(count: int, make: nat -> T) returns (out: seq<T>)
    ensures |out| == if count < 0 then 0 else count
    ensures forall i :: 0 <= i < |out| ==> out[i] == make(i)
  {
    out := [];
    var i := 0;
    while i < count
      invariant 0 <= i && (i == 0 || i <= count)
      invariant |out| == i
      invariant forall j :: 0 <= j < i ==> out[j] == make(j)
    {
      out := out + [make(i)];
      i := i + 1;
    }
  }

  /** The `createUsers(count, overrides)` fixture: `userFactory.createMany(count, overrides)`. */
  function CreateUsers(count: int, overrides: Option<seq<Prop>>, draw: nat -> UserDraw): (r: seq<seq<Prop>>)
    ensures |r| == if count < 0 then 0 else count
    ensures WellFormedOverrides(overrides) ==>
      forall i, k :: 0 <= i < |r| ==> Lookup(r[i], k) == Expected(UserDefaults(draw(i)), overrides, k)
  {
    CreateMany(count, i => CreateUser(overrides, draw(i)))
  }

  /** Every user `createUsers` builds carries the same overrides. */
  lemma CreateUsersShareOverrides(count: int, overrides: seq<Prop>, draw: nat -> UserDraw, k: string)
    requires DistinctKeys(overrides) && k in Keys(overrides)
    ensures forall i :: 0 <= i < |CreateUsers(count, Some(overrides), draw)| ==>
      Lookup(CreateUsers(count, Some(overrides), draw)[i], k) == Lookup(overrides, k)
  {
  }
}
