/**
 * The test-data factories (Meowwright/test-data/factories): `BaseFactory.createMany` and
 * `mergeWithOverrides`, `UserFactory` and `FormFactory`. Records are JSON objects; the
 * values faker would generate are handed in as a "draw" per created record.
 */
module Factories {
  import opened Wrappers
  import opened Json

  /** An overrides object as JavaScript can build it: absent, or an object with distinct keys. */
  predicate WellFormedOverrides(overrides: Option<seq<Prop>>)
  {
    overrides.None? || DistinctKeys(overrides.value)
  }

  /** The value a merged record has at `k`: the override when given, else the default. */
  function Expected(defaults: seq<Prop>, overrides: Option<seq<Prop>>, k: string): Option<Value>
  {
    if overrides.Some? && k in Keys(overrides.value) then Lookup(overrides.value, k)
    else Lookup(defaults, k)
  }

  /**
   * `mergeWithOverrides(defaults, overrides)`: `{...defaults, ...overrides}`. It is
   * shallow: an override replaces the default value whole, nested records included.
   */
  function MergeWithOverrides(defaults: seq<Prop>, overrides: Option<seq<Prop>>): (r: seq<Prop>)
    ensures overrides.None? ==> r == defaults
    ensures WellFormedOverrides(overrides) ==> forall k :: Lookup(r, k) == Expected(defaults, overrides, k)
  {
    match overrides
    case None => defaults
    case Some(o) => Assign(defaults, o)
  }

  /**
   * `createMany(count, overrides)`: `Array.from({length: count}, ...)`, so a negative
   * count gives no records. `create(i)` is the record built by the i-th call.
   */
  function CreateMany<T>(count: int, create: nat -> T): (r: seq<T>)
    ensures |r| == if count < 0 then 0 else count
    ensures forall i :: 0 <= i < |r| ==> r[i] == create(i)
  {
    seq(if count < 0 then 0 else count, i requires 0 <= i => create(i))
  }

  // ---------------------------------------------------------------------------------------
  // UserFactory
  // ---------------------------------------------------------------------------------------

  /** The faker values one `UserFactory.create` call draws. */
  datatype UserDraw = UserDraw(
    username: string, password: string, email: string,
    firstName: string, lastName: string, createdAt: int)

  function UserDefaults(d: UserDraw): (r: seq<Prop>)
    ensures DistinctKeys(r)
  {
    [Prop("username", Str(d.username)), Prop("password", Str(d.password)),
     Prop("email", Str(d.email)), Prop("firstName", Str(d.firstName)),
     Prop("lastName", Str(d.lastName)), Prop("role", Str("standard")),
     Prop("isActive", Bool(true)), Prop("createdAt", Int(d.createdAt)), Prop("metadata", Obj([]))]
  }

  /** `UserFactory.create(overrides)`. */
  function CreateUser(overrides: Option<seq<Prop>>, d: UserDraw): (r: seq<Prop>)
    ensures WellFormedOverrides(overrides) ==> forall k :: Lookup(r, k) == Expected(UserDefaults(d), overrides, k)
  {
    MergeWithOverrides(UserDefaults(d), overrides)
  }

  /** `{key: v, ...overrides}`: the argument the specialised creators pass on. */
  function Preset(key: string, v: Value, overrides: Option<seq<Prop>>): (r: seq<Prop>)
    ensures DistinctKeys(r)
    ensures WellFormedOverrides(overrides) ==> Lookup(r, key) == Expected([Prop(key, v)], overrides, key)
  {
    var o := overrides.GetOr([]);
    AssignDistinct([Prop(key, v)], o);
    Assign([Prop(key, v)], o)
  }

  /** Writing the properties of an object into one with distinct keys keeps them distinct. */
  lemma {:induction false} AssignDistinct(acc: seq<Prop>, src: seq<Prop>)
    requires DistinctKeys(acc)
    ensures DistinctKeys(Assign(acc, src))
    decreases |src|
  {
    if |src| > 0 {
      PutDistinct(acc, src[0].key, src[0].val);
      AssignDistinct(Put(acc, src[0].key, src[0].val), src[1..]);
    }
  }

  /** `createAdmin(overrides)`: `create({role: 'admin', ...overrides})`. */
  function CreateAdmin(overrides: Option<seq<Prop>>, d: UserDraw): seq<Prop>
  {
    CreateUser(Some(Preset("role", Str("admin"), overrides)), d)
  }

  /** `createRestricted(overrides)`: `create({role: 'restricted', ...overrides})`. */
  function CreateRestricted(overrides: Option<seq<Prop>>, d: UserDraw): seq<Prop>
  {
    CreateUser(Some(Preset("role", Str("restricted"), overrides)), d)
  }

  /** `createInactive(overrides)`: `create({isActive: false, ...overrides})`. */
  function CreateInactive(overrides: Option<seq<Prop>>, d: UserDraw): seq<Prop>
  {
    CreateUser(Some(Preset("isActive", Bool(false), overrides)), d)
  }

  /** `create()` makes an active standard user with empty metadata. */
  lemma CreateUserDefaults(d: UserDraw)
    ensures var u := CreateUser(None, d);
      && Lookup(u, "role") == Some(Str("standard"))
      && Lookup(u, "isActive") == Some(Bool(true))
      && Lookup(u, "metadata") == Some(Obj([]))
      && Lookup(u, "username") == Some(Str(d.username))
  {
    var defaults := UserDefaults(d);
    LookupAt(defaults, 0);
    LookupAt(defaults, 5);
    LookupAt(defaults, 6);
    LookupAt(defaults, 8);
  }

  /** Given overrides win over the generated values. */
  lemma CreateUserOverrides(overrides: seq<Prop>, d: UserDraw, k: string)
    requires DistinctKeys(overrides) && k in Keys(overrides)
    ensures Lookup(CreateUser(Some(overrides), d), k) == Lookup(overrides, k)
  {
  }

  /**
   * Each specialised creator sets its one field unless the overrides set it, and leaves
   * the others at `create`'s defaults.
   */
  lemma SpecialisedUsers(overrides: Option<seq<Prop>>, d: UserDraw)
    requires WellFormedOverrides(overrides)
    ensures var o := overrides;
      && Lookup(CreateAdmin(o, d), "role") == Expected([Prop("role", Str("admin"))], o, "role")
      && Lookup(CreateRestricted(o, d), "role") == Expected([Prop("role", Str("restricted"))], o, "role")
      && Lookup(CreateInactive(o, d), "isActive") == Expected([Prop("isActive", Bool(false))], o, "isActive")
      && Lookup(CreateAdmin(o, d), "isActive") == Expected(UserDefaults(d), o, "isActive")
      && Lookup(CreateRestricted(o, d), "isActive") == Expected(UserDefaults(d), o, "isActive")
      && Lookup(CreateInactive(o, d), "role") == Expected(UserDefaults(d), o, "role")
  {
    PresetKeys("role", Str("admin"), overrides, "isActive");
    PresetKeys("role", Str("restricted"), overrides, "isActive");
    PresetKeys("isActive", Bool(false), overrides, "role");
  }

  /** A preset object has its key, plus exactly the keys of the overrides. */
  lemma PresetKeys(key: string, v: Value, overrides: Option<seq<Prop>>, other: string)
    requires WellFormedOverrides(overrides) && other != key
    ensures var p := Preset(key, v, overrides);
      && key in Keys(p)
      && (other in Keys(p) <==> overrides.Some? && other in Keys(overrides.value))
      && (other in Keys(p) ==> Lookup(p, other) == Lookup(overrides.value, other))
  {
    var o := overrides.GetOr([]);
    var p := Assign([Prop(key, v)], o);
    assert Lookup(p, key).Some?;
    if other in Keys(o) {
      assert Lookup(p, other) == Lookup(o, other);
    } else {
      assert Lookup(p, other) == Lookup([Prop(key, v)], other) == None;
    }
  }

  // ---------------------------------------------------------------------------------------
  // FormFactory
  // ---------------------------------------------------------------------------------------

  /** The faker values one form creation draws. */
  datatype FormDraw = FormDraw(
    words: seq<string>, isRequired: bool, lastModified: int,
    firstName: string, lastName: string, email: string, gender: string, mobile: string,
    dateOfBirth: string, subject: string, hobbies: seq<string>, streetAddress: string,
    otherStreetAddress: string, state: string, city: string,
    age: int, salary: int, department: string)

  function Strs(xs: seq<string>): seq<Value>
  {
    seq(|xs|, i requires 0 <= i < |xs| => Str(xs[i]))
  }

  function Word(d: FormDraw, i: nat): string
  {
    if i < |d.words| then d.words[i] else ""
  }

  /** The properties every form shares; only `formType`, `fields` and `isRequired` vary. */
  function FormRecord(formType: string, fields: seq<Prop>, isRequired: bool, d: FormDraw): (r: seq<Prop>)
    ensures DistinctKeys(r)
    ensures Lookup(r, "formType") == Some(Str(formType)) && Lookup(r, "fields") == Some(Obj(fields))
    ensures Lookup(r, "isRequired") == Some(Bool(isRequired)) && Lookup(r, "metadata") == Some(Obj([]))
  {
    var r := [Prop("formType", Str(formType)), Prop("fields", Obj(fields)), Prop("isRequired", Bool(isRequired)),
              Prop("lastModified", Int(d.lastModified)), Prop("metadata", Obj([]))];
    LookupAt(r, 0);
    LookupAt(r, 1);
    LookupAt(r, 2);
    LookupAt(r, 4);
    r
  }

  function GenericFields(d: FormDraw): (r: seq<Prop>)
    ensures Keys(r) == ["field1", "field2", "field3"]
  {
    [Prop("field1", Str(Word(d, 0))), Prop("field2", Str(Word(d, 1))), Prop("field3", Str(Word(d, 2)))]
  }

  function RegistrationFields(d: FormDraw): (r: seq<Prop>)
    ensures Keys(r) == ["firstName", "lastName", "email", "gender", "mobile", "dateOfBirth",
                        "subjects", "hobbies", "currentAddress", "state", "city"]
  {
    [Prop("firstName", Str(d.firstName)), Prop("lastName", Str(d.lastName)),
     Prop("email", Str(d.email)), Prop("gender", Str(d.gender)), Prop("mobile", Str(d.mobile)),
     Prop("dateOfBirth", Str(d.dateOfBirth)), Prop("subjects", Arr([Str(d.subject)])),
     Prop("hobbies", Arr(Strs(d.hobbies))), Prop("currentAddress", Str(d.streetAddress)),
     Prop("state", Str(d.state)), Prop("city", Str(d.city))]
  }

  function TextBoxFields(d: FormDraw): (r: seq<Prop>)
    ensures Keys(r) == ["fullName", "email", "currentAddress", "permanentAddress"]
  {
    [Prop("fullName", Str(d.firstName + " " + d.lastName)), Prop("email", Str(d.email)),
     Prop("currentAddress", Str(d.streetAddress)), Prop("permanentAddress", Str(d.otherStreetAddress))]
  }

  function WebTablesFields(d: FormDraw): (r: seq<Prop>)
    ensures Keys(r) == ["firstName", "lastName", "email", "age", "salary", "department"]
  {
    [Prop("firstName", Str(d.firstName)), Prop("lastName", Str(d.lastName)),
     Prop("email", Str(d.email)), Prop("age", Str(Text.IntToString(d.age))),
     Prop("salary", Str(Text.IntToString(d.salary))), Prop("department", Str(d.department))]
  }

  /** `FormFactory.create(overrides)`: a 'generic' form whose `isRequired` is drawn. */
  function CreateForm(overrides: Option<seq<Prop>>, d: FormDraw): seq<Prop>
  {
    MergeWithOverrides(FormRecord("generic", GenericFields(d), d.isRequired, d), overrides)
  }

  function CreateRegistrationForm(overrides: Option<seq<Prop>>, d: FormDraw): seq<Prop>
  {
    MergeWithOverrides(FormRecord("registration", RegistrationFields(d), true, d), overrides)
  }

  function CreateTextBoxForm(overrides: Option<seq<Prop>>, d: FormDraw): seq<Prop>
  {
    MergeWithOverrides(FormRecord("textBox", TextBoxFields(d), true, d), overrides)
  }

  function CreateWebTablesForm(overrides: Option<seq<Prop>>, d: FormDraw): seq<Prop>
  {
    MergeWithOverrides(FormRecord("webTables", WebTablesFields(d), true, d), overrides)
  }

  /** The value of `fields` in a created form, when it is an object. */
  function FieldKeys(form: seq<Prop>): seq<string>
  {
    match Lookup(form, "fields")
    case Some(Obj(props)) => Keys(props)
    case _ => []
  }

  /**
   * Without overrides each creator stamps its form type and its own field set, and the
   * three specific ones make the form required.
   */
  lemma FormDefaults(d: FormDraw)
    ensures Lookup(CreateForm(None, d), "formType") == Some(Str("generic"))
    ensures FieldKeys(CreateForm(None, d)) == ["field1", "field2", "field3"]
    ensures Lookup(CreateForm(None, d), "isRequired") == Some(Bool(d.isRequired))
    ensures Lookup(CreateRegistrationForm(None, d), "formType") == Some(Str("registration"))
    ensures Lookup(CreateRegistrationForm(None, d), "isRequired") == Some(Bool(true))
    ensures FieldKeys(CreateRegistrationForm(None, d))
         == ["firstName", "lastName", "email", "gender", "mobile", "dateOfBirth",
             "subjects", "hobbies", "currentAddress", "state", "city"]
    ensures Lookup(CreateTextBoxForm(None, d), "formType") == Some(Str("textBox"))
    ensures Lookup(CreateTextBoxForm(None, d), "isRequired") == Some(Bool(true))
    ensures FieldKeys(CreateTextBoxForm(None, d)) == ["fullName", "email", "currentAddress", "permanentAddress"]
    ensures Lookup(CreateWebTablesForm(None, d), "formType") == Some(Str("webTables"))
    ensures Lookup(CreateWebTablesForm(None, d), "isRequired") == Some(Bool(true))
    ensures FieldKeys(CreateWebTablesForm(None, d))
         == ["firstName", "lastName", "email", "age", "salary", "department"]
  {
    FormRecordAlone("generic", GenericFields(d), d.isRequired, d);
    FormRecordAlone("registration", RegistrationFields(d), true, d);
    FormRecordAlone("textBox", TextBoxFields(d), true, d);
    FormRecordAlone("webTables", WebTablesFields(d), true, d);
  }

  /** A form record merged with no overrides shows its type, its flag and its field keys. */
  lemma FormRecordAlone(formType: string, fields: seq<Prop>, isRequired: bool, d: FormDraw)
    ensures var form := MergeWithOverrides(FormRecord(formType, fields, isRequired, d), None);
      && Lookup(form, "formType") == Some(Str(formType))
      && Lookup(form, "isRequired") == Some(Bool(isRequired))
      && FieldKeys(form) == Keys(fields)
  {
  }

  /**
   * An override of `fields` replaces the whole field record: the default fields it does
   * not mention are gone.
   */
  lemma FieldsOverrideIsShallow(fields: seq<Prop>, d: FormDraw)
    ensures var form := CreateTextBoxForm(Some([Prop("fields", Obj(fields))]), d);
      Lookup(form, "fields") == Some(Obj(fields)) && FieldKeys(form) == Keys(fields)
  {
    var o := [Prop("fields", Obj(fields))];
    assert DistinctKeys(o);
    assert Keys(o) == ["fields"];
  }
}
