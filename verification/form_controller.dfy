/** The pattern the three forms share: values seeded from the stored identity
    and the caller's initial data, identity fields re-applied when storage
    changes, user edits that cannot touch read-only identity fields, and every
    change reported upward in full. */
module FormController {
  import opened JsValues
  import opened Browser
  import Calendar

  /** react-hook-form's values: field name to value; a missing key reads as `undefined`. */
  type FormValues = map<string, JsValue>

  /** Which fields a form fills from the identity (and from which identity
      field), which it fills from the caller's `initialData`, and whether the
      identity fields are rendered `readOnly`. */
  datatype FormSpec = FormSpec(bound: map<string, IdentityField>, carried: set<string>, readOnlyBound: bool)

  predicate WellFormed(spec: FormSpec) {
    spec.bound.Keys !! spec.carried
  }

  /** `watch(key)`. */
  function Lookup(values: FormValues, key: string): JsValue {
    if key in values then values[key] else Undefined
  }

  /** The identity-bound fields filled from `user`, each `user?.field || ""`. */
  function IdentityFields(spec: FormSpec, user: Option<Identity>): (r: FormValues)
    ensures r.Keys == spec.bound.Keys
    ensures forall k :: k in r ==> r[k] == OrEmpty(IdentityValue(user, spec.bound[k]))
  {
    map k | k in spec.bound :: OrEmpty(IdentityValue(user, spec.bound[k]))
  }

  /** `defaultValues`: every identity-bound field from the identity and every
      carried field from `initialData?.field`, each defaulted with `|| ""`. */
  function Seed(spec: FormSpec, user: Option<Identity>, initialData: Option<FormValues>): (r: FormValues)
    ensures r.Keys == spec.bound.Keys + spec.carried
    ensures forall k :: k in spec.bound ==> r[k] == OrEmpty(IdentityValue(user, spec.bound[k]))
    ensures forall k :: k in spec.carried && k !in spec.bound ==> r[k] == OrEmpty(Get(initialData, k))
    ensures forall k :: k in r ==> Filled(r[k])
  {
    var fromData := map k | k in spec.carried :: OrEmpty(Get(initialData, k));
    OrEmptyFillsAll(spec, user);
    fromData + IdentityFields(spec, user)
  }

  lemma OrEmptyFillsAll(spec: FormSpec, user: Option<Identity>)
    ensures forall k :: k in spec.bound ==> Filled(OrEmpty(IdentityValue(user, spec.bound[k])))
  {
    forall k | k in spec.bound
      ensures Filled(OrEmpty(IdentityValue(user, spec.bound[k])))
    {
      OrEmptyFills(IdentityValue(user, spec.bound[k]));
    }
  }

  /** The storage-event handler: with a stored user, `setValue` on every
      identity-bound field; with `null`, no field changes. */
  function OnStorageChange(spec: FormSpec, values: FormValues, user: Option<Identity>): (r: FormValues)
    ensures user.None? ==> r == values
    ensures user.Some? ==> r.Keys == values.Keys + spec.bound.Keys
    ensures user.Some? ==> forall k :: k in spec.bound ==> r[k] == OrEmpty(IdentityValue(user, spec.bound[k]))
    ensures forall k :: k in values && k !in spec.bound ==> k in r && r[k] == values[k]
  {
    if user.Some? then values + IdentityFields(spec, user) else values
  }

  /** Re-seeding on a storage change gives what seeding with the new identity
      would have given, so the carried fields survive and nothing is lost. */
  lemma {:induction false} ReseedMatchesSeed(spec: FormSpec, previous: Option<Identity>, current: Identity, initialData: Option<FormValues>)
    requires WellFormed(spec)
    ensures OnStorageChange(spec, Seed(spec, previous, initialData), Some(current)) == Seed(spec, Some(current), initialData)
  {
    var a := OnStorageChange(spec, Seed(spec, previous, initialData), Some(current));
    var b := Seed(spec, Some(current), initialData);
    assert a.Keys == b.Keys;
    forall k | k in a
      ensures a[k] == b[k]
    {
      if k !in spec.bound {
        assert k in spec.carried;
      }
    }
  }

  /** Of two storage changes that both find a user, the later one wins. */
  lemma LastStorageChangeWins(spec: FormSpec, values: FormValues, first: Option<Identity>, second: Identity)
    ensures OnStorageChange(spec, OnStorageChange(spec, values, first), Some(second))
         == OnStorageChange(spec, values, Some(second))
  {
    var a := OnStorageChange(spec, OnStorageChange(spec, values, first), Some(second));
    var b := OnStorageChange(spec, values, Some(second));
    assert a.Keys == b.Keys;
    forall k | k in a
      ensures a[k] == b[k]
    {
    }
  }

  /** A user edit: typing into a field, or a select or calendar writing it. A
      `readOnly` identity field cannot be typed into, so it keeps its value. */
  function Edit(spec: FormSpec, values: FormValues, key: string, value: JsValue): (r: FormValues)
    ensures spec.readOnlyBound && key in spec.bound ==> r == values
    ensures !(spec.readOnlyBound && key in spec.bound) ==> r == values[key := value]
  {
    if spec.readOnlyBound && key in spec.bound then values else values[key := value]
  }

  /** What can happen to a mounted request form. */
  datatype Event = Typed(key: string, value: JsValue) | StorageChanged(user: Option<Identity>)

  function Step(spec: FormSpec, values: FormValues, e: Event): FormValues {
    match e
    case Typed(key, value) => Edit(spec, values, key, value)
    case StorageChanged(user) => OnStorageChange(spec, values, user)
  }

  /** The values after a sequence of events; no field is ever removed. */
  function Run(spec: FormSpec, values: FormValues, events: seq<Event>): (r: FormValues)
    ensures values.Keys <= r.Keys
    decreases |events|
  {
    if |events| == 0 then values else Run(spec, Step(spec, values, events[0]), events[1..])
  }

  /** The values after each event, starting with the seed. The parent's
      `onDataChange` receives the whole value set after every render, and
      each of these is among what it receives. */
  function Notifications(spec: FormSpec, values: FormValues, events: seq<Event>): (r: seq<FormValues>)
    ensures |r| == |events| + 1
    ensures r[0] == values
    ensures forall i :: 0 <= i <= |events| ==> r[i] == Run(spec, values, events[..i])
    decreases |events|
  {
    if |events| == 0 then [values]
    else
      var rest := Notifications(spec, Step(spec, values, events[0]), events[1..]);
      assert forall i :: 1 <= i <= |events| ==> events[..i][1..] == events[1..][..i - 1];
      [values] + rest
  }

  /** The identity the form last read: the most recent storage change that
      found a user, or the one it started with. */
  function LatestIdentity(user: Option<Identity>, events: seq<Event>): (r: Option<Identity>)
    ensures user.Some? ==> r.Some?
    ensures r != user ==> r.Some? && exists i :: 0 <= i < |events| && events[i] == StorageChanged(r)
    decreases |events|
  {
    if |events| == 0 then user
    else
      var next := if events[0].StorageChanged? && events[0].user.Some? then events[0].user else user;
      LatestIdentity(next, events[1..])
  }

  /** Every identity-bound field shows `user?.field || ""`. */
  predicate ShowsIdentity(spec: FormSpec, values: FormValues, user: Option<Identity>) {
    forall k :: k in spec.bound ==> k in values && values[k] == OrEmpty(IdentityValue(user, spec.bound[k]))
  }

  lemma ShowsIdentityAt(spec: FormSpec, values: FormValues, user: Option<Identity>, key: string)
    requires ShowsIdentity(spec, values, user) && key in spec.bound
    ensures Lookup(values, key) == OrEmpty(IdentityValue(user, spec.bound[key]))
  {
  }

  lemma SeedShowsIdentity(spec: FormSpec, user: Option<Identity>, initialData: Option<FormValues>)
    ensures ShowsIdentity(spec, Seed(spec, user, initialData), user)
  {
  }

  /** Read-only identity fields always show the latest stored identity,
      whatever the user types and however often storage changes. */
  lemma {:induction false} ReadOnlyFieldsFollowIdentity(spec: FormSpec, values: FormValues, user: Option<Identity>, events: seq<Event>)
    requires spec.readOnlyBound
    requires ShowsIdentity(spec, values, user)
    ensures ShowsIdentity(spec, Run(spec, values, events), LatestIdentity(user, events))
    decreases |events|
  {
    if |events| > 0 {
      var e := events[0];
      var next := if e.StorageChanged? && e.user.Some? then e.user else user;
      assert ShowsIdentity(spec, Step(spec, values, e), next);
      ReadOnlyFieldsFollowIdentity(spec, Step(spec, values, e), next, events[1..]);
    }
  }

  /** The parent's last notification is the form's current value set. */
  lemma {:induction false} ParentSeesCurrentValues(spec: FormSpec, values: FormValues, events: seq<Event>)
    ensures Notifications(spec, values, events)[|events|] == Run(spec, values, events)
    decreases |events|
  {
    if |events| > 0 {
      ParentSeesCurrentValues(spec, Step(spec, values, events[0]), events[1..]);
    }
  }

  /** A mounted request form: its values, the identity it last read, and the
      browser probe that picks the date input. */
  datatype RequestForm = RequestForm(values: FormValues, user: Option<Identity>, probe: Probe)

  function Mount(spec: FormSpec, user: Option<Identity>, initialData: Option<FormValues>): (f: RequestForm)
    ensures f.values == Seed(spec, user, initialData)
    ensures DateInputFor(f.probe) == CalendarPopover
  {
    RequestForm(Seed(spec, user, initialData), user, Pending)
  }

  /** Detection resolving changes only how the date is entered, never a value. */
  function ProbeResolved(f: RequestForm, userAgent: string, brave: BraveCheck): (r: RequestForm)
    ensures r.values == f.values && r.user == f.user
    ensures DateInputFor(r.probe) == NativeDateInput <==> IsChromeBrowser(userAgent, brave)
  {
    f.(probe := Detect(userAgent, brave))
  }

  /** Whether local day `day` can be entered as the date of birth at instant
      `now`, with `offsetMinutes` the offset in force at that day's local
      midnight: the native date input sets no bounds, while the calendar
      popover runs the `disabled` callback as written, so in a zone east of
      UTC on 1900-01-01 that date cannot be picked. */
  function CanPickDateOfBirth(f: RequestForm, day: int, offsetMinutes: int, now: int): (b: bool)
    ensures DateInputFor(f.probe) == NativeDateInput ==> b
    ensures DateInputFor(f.probe) == CalendarPopover && 0 < offsetMinutes < 1440 ==>
      (b <==> Calendar.Day1900 < day <= Calendar.Today(now, offsetMinutes))
    ensures DateInputFor(f.probe) == CalendarPopover && -1440 < offsetMinutes <= 0 ==>
      (b <==> Calendar.Day1900 <= day <= Calendar.Today(now, offsetMinutes))
  {
    Calendar.AsWrittenRange(day, offsetMinutes, now);
    DateInputFor(f.probe) == NativeDateInput || !Calendar.DisabledAsWritten(day, offsetMinutes, now)
  }

  /** The storage handler also replaces the remembered user, `null` included. */
  function StorageChange(spec: FormSpec, f: RequestForm, user: Option<Identity>): (r: RequestForm)
    ensures r.user == user && r.probe == f.probe
    ensures r.values == OnStorageChange(spec, f.values, user)
  {
    RequestForm(OnStorageChange(spec, f.values, user), user, f.probe)
  }

  /** The document kinds the request forms hand to `onSubmit`. */
  datatype DocumentKind = BarangayClearance | Cedula

  function KindTag(k: DocumentKind): string {
    match k
    case BarangayClearance => "barangay-clearance"
    case Cedula => "cedula"
  }

  /** How a receiver of `onSubmit(data, tag)` tells the kinds apart. */
  function KindOfTag(tag: string): (k: Option<DocumentKind>)
    ensures k.Some? ==> KindTag(k.value) == tag
  {
    if tag == "barangay-clearance" then Some(BarangayClearance)
    else if tag == "cedula" then Some(Cedula)
    else None
  }

  /** Each kind's tag is read back as that kind, so the two tags differ. */
  lemma KindTagRoundTrip(k: DocumentKind)
    ensures KindOfTag(KindTag(k)) == Some(k)
  {
  }

  /** `onSubmit(data, tag)`: the validated data, forwarded as is, with the kind's tag. */
  datatype Submission = Submission(data: FormValues, tag: string)

  function Submit(kind: DocumentKind, values: FormValues): (s: Submission)
    ensures s.data == values
    ensures KindOfTag(s.tag) == Some(kind)
  {
    Submission(values, KindTag(kind))
  }
}
