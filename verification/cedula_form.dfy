/** The community tax certificate (cedula) request form. */
module CedulaForm {
  import opened JsValues
  import opened FormController

  /** The fields filled from `initialData`, each `initialData?.field || ""`. */
  const CarriedFields: set<string> := {
    "dateOfBirth", "placeOfBirth", "civilStatus", "occupation", "employerName",
    "employerAddress", "incomeSource", "grossAnnualIncome", "businessGrossSales",
    "realEstateIncome", "validId"
  }

  /** `name` and `barangay` come from the stored user and are rendered `readOnly`. */
  const Spec: FormSpec := FormSpec(map["name" := NameField, "barangay" := BarangayField], CarriedFields, true)

  /** No carried field is an identity field: none has the length of "name" or "barangay". */
  lemma SpecWellFormed()
    ensures WellFormed(Spec)
    ensures Spec.bound.Keys == {"name", "barangay"}
  {
    assert forall k :: k in CarriedFields ==> |k| != 4 && |k| != 8;
  }

  /** The seed holds exactly the thirteen fields: `name` and `barangay` from the
      identity, the eleven others from `initialData`, and a falsy or missing
      value becomes "". */
  lemma SeedFields(user: Option<Identity>, initialData: Option<FormValues>)
    ensures var v := Mount(Spec, user, initialData).values;
      && v.Keys == {"name", "barangay"} + CarriedFields
      && v["name"] == OrEmpty(IdentityValue(user, NameField))
      && v["barangay"] == OrEmpty(IdentityValue(user, BarangayField))
      && (forall k :: k in CarriedFields ==> v[k] == OrEmpty(Get(initialData, k)))
      && (forall k :: k in CarriedFields && !Truthy(Get(initialData, k)) ==> v[k] == Str(""))
  {
    SpecWellFormed();
  }

  /** A storage change that finds a user rewrites `name` and `barangay` and
      keeps every other field; one that finds `null` changes no value. */
  lemma StorageChangeRewritesIdentityOnly(f: RequestForm, user: Option<Identity>)
    ensures var r := StorageChange(Spec, f, user);
      && (user.None? ==> r.values == f.values)
      && (user.Some? ==> r.values.Keys == f.values.Keys + {"name", "barangay"})
      && (user.Some? ==> r.values["name"] == OrEmpty(user.value.name))
      && (user.Some? ==> r.values["barangay"] == OrEmpty(user.value.barangay))
      && (forall k :: k in f.values && k != "name" && k != "barangay" ==> r.values[k] == f.values[k])
  {
    assert Spec.bound.Keys == {"name", "barangay"};
  }

  /** Whatever is typed and however storage changes, `name` and `barangay`
      show the latest stored user. */
  lemma IdentityFieldsReadOnly(user: Option<Identity>, initialData: Option<FormValues>, events: seq<Event>)
    ensures var v := Run(Spec, Mount(Spec, user, initialData).values, events);
      var latest := LatestIdentity(user, events);
      && Lookup(v, "name") == OrEmpty(IdentityValue(latest, NameField))
      && Lookup(v, "barangay") == OrEmpty(IdentityValue(latest, BarangayField))
  {
    var seed := Mount(Spec, user, initialData).values;
    SeedShowsIdentity(Spec, user, initialData);
    ReadOnlyFieldsFollowIdentity(Spec, seed, user, events);
    var v := Run(Spec, seed, events);
    var latest := LatestIdentity(user, events);
    ShowsIdentityAt(Spec, v, latest, "name");
    ShowsIdentityAt(Spec, v, latest, "barangay");
  }

  /** `handleFormSubmit`: the data goes to `onSubmit` unchanged, tagged "cedula". */
  lemma SubmitTagsCedula(values: FormValues)
    ensures Submit(Cedula, values) == Submission(values, "cedula")
    ensures KindOfTag(Submit(Cedula, values).tag) == Some(Cedula)
  {
  }

  datatype CivilStatus = Single | Married | Widowed | Separated

  /** The select's items, in the order shown. */
  const CivilStatusOptions: seq<CivilStatus> := [Single, Married, Widowed, Separated]

  function CivilStatusLabel(c: CivilStatus): string {
    match c
    case Single => "Single"
    case Married => "Married"
    case Widowed => "Widowed"
    case Separated => "Separated"
  }

  function ParseCivilStatus(s: string): (c: Option<CivilStatus>)
    ensures c.Some? ==> CivilStatusLabel(c.value) == s
  {
    if s == "Single" then Some(Single)
    else if s == "Married" then Some(Married)
    else if s == "Widowed" then Some(Widowed)
    else if s == "Separated" then Some(Separated)
    else None
  }

  /** The civil-status domain is exactly the four labels, and each label names one status. */
  lemma CivilStatusDomain(s: string)
    ensures ParseCivilStatus(s).Some? <==> s in ["Single", "Married", "Widowed", "Separated"]
    ensures forall c :: c in CivilStatusOptions ==> ParseCivilStatus(CivilStatusLabel(c)) == Some(c)
  {
  }

  /** `handleCivilStatusChange`: sets `civilStatus` to the chosen label and nothing else. */
  function ChooseCivilStatus(f: RequestForm, c: CivilStatus): (r: RequestForm)
    ensures r.values.Keys == f.values.Keys + {"civilStatus"}
    ensures "civilStatus" in r.values && r.values["civilStatus"] == Str(CivilStatusLabel(c))
    ensures ParseCivilStatus(CivilStatusLabel(c)) == Some(c)
    ensures forall k :: k in f.values && k != "civilStatus" ==> r.values[k] == f.values[k]
    ensures r.user == f.user && r.probe == f.probe
  {
    f.(values := Edit(Spec, f.values, "civilStatus", Str(CivilStatusLabel(c))))
  }
}
