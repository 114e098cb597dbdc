/** The barangay clearance request form. */
module ClearanceForm {
  import opened JsValues
  import opened FormController

  /** The fields filled from `initialData`, each `initialData?.field || ""`. */
  const CarriedFields: set<string> := {"purpose", "contactNumber", "dateOfBirth"}

  /** `name`, `email` and `barangay` come from the stored user and are rendered `readOnly`. */
  const Spec: FormSpec := FormSpec(
    map["name" := NameField, "email" := EmailField, "barangay" := BarangayField], CarriedFields, true)

  /** The seed holds exactly six fields: three from the identity and three
      from `initialData`, a falsy or missing value becoming "". */
  lemma SeedFields(user: Option<Identity>, initialData: Option<FormValues>)
    ensures var v := Mount(Spec, user, initialData).values;
      && v.Keys == {"name", "email", "barangay", "purpose", "contactNumber", "dateOfBirth"}
      && v["name"] == OrEmpty(IdentityValue(user, NameField))
      && v["email"] == OrEmpty(IdentityValue(user, EmailField))
      && v["barangay"] == OrEmpty(IdentityValue(user, BarangayField))
      && v["purpose"] == OrEmpty(Get(initialData, "purpose"))
      && v["contactNumber"] == OrEmpty(Get(initialData, "contactNumber"))
      && v["dateOfBirth"] == OrEmpty(Get(initialData, "dateOfBirth"))
  {
    assert Spec.bound.Keys == {"name", "email", "barangay"};
  }

  /** A storage change that finds a user rewrites exactly the three identity
      fields and keeps the others; one that finds `null` changes no value. */
  lemma StorageChangeRewritesIdentityOnly(f: RequestForm, user: Option<Identity>)
    ensures var r := StorageChange(Spec, f, user);
      && (user.None? ==> r.values == f.values)
      && (user.Some? ==> r.values.Keys == f.values.Keys + {"name", "email", "barangay"})
      && (user.Some? ==> r.values["name"] == OrEmpty(user.value.name))
      && (user.Some? ==> r.values["email"] == OrEmpty(user.value.email))
      && (user.Some? ==> r.values["barangay"] == OrEmpty(user.value.barangay))
      && (forall k :: k in f.values && k !in {"name", "email", "barangay"} ==> r.values[k] == f.values[k])
  {
    assert Spec.bound.Keys == {"name", "email", "barangay"};
  }

  /** Whatever is typed and however storage changes, the three identity
      fields show the latest stored user. */
  lemma IdentityFieldsReadOnly(user: Option<Identity>, initialData: Option<FormValues>, events: seq<Event>)
    ensures var v := Run(Spec, Mount(Spec, user, initialData).values, events);
      var latest := LatestIdentity(user, events);
      && Lookup(v, "name") == OrEmpty(IdentityValue(latest, NameField))
      && Lookup(v, "email") == OrEmpty(IdentityValue(latest, EmailField))
      && Lookup(v, "barangay") == OrEmpty(IdentityValue(latest, BarangayField))
  {
    var seed := Mount(Spec, user, initialData).values;
    SeedShowsIdentity(Spec, user, initialData);
    ReadOnlyFieldsFollowIdentity(Spec, seed, user, events);
    var v := Run(Spec, seed, events);
    var latest := LatestIdentity(user, events);
    ShowsIdentityAt(Spec, v, latest, "name");
    ShowsIdentityAt(Spec, v, latest, "email");
    ShowsIdentityAt(Spec, v, latest, "barangay");
  }

  /** `handleFormSubmit`: the data goes to `onSubmit` unchanged, tagged "barangay-clearance". */
  lemma SubmitTagsClearance(values: FormValues)
    ensures Submit(BarangayClearance, values) == Submission(values, "barangay-clearance")
    ensures KindOfTag(Submit(BarangayClearance, values).tag) == Some(BarangayClearance)
  {
  }
}
