/** The incident report form: the category table, the identity-seeded
    reporter fields, evidence conversion, and the submit and cancel outcomes. */
module IncidentForm {
  import opened JsValues
  import opened Text
  import opened Http
  import opened Browser
  import opened FormController

  datatype Category =
    | CrimeRelated
    | CommunityDisturbances
    | EnvironmentalHealth
    | TrafficRoad
    | MissingPersonsLostItems
    | DomesticCivil
    | AnimalRelated

  /** The keys of `incidentCategories`, in declaration order. */
  const Categories: seq<Category> := [
    CrimeRelated, CommunityDisturbances, EnvironmentalHealth, TrafficRoad,
    MissingPersonsLostItems, DomesticCivil, AnimalRelated
  ]

  function CategoryLabel(c: Category): string {
    match c
    case CrimeRelated => "Crime-Related Incidents"
    case CommunityDisturbances => "Community Disturbances"
    case EnvironmentalHealth => "Environmental & Health Concerns"
    case TrafficRoad => "Traffic & Road Issues"
    case MissingPersonsLostItems => "Missing Persons & Lost Items"
    case DomesticCivil => "Domestic & Civil Disputes"
    case AnimalRelated => "Animal-Related Incidents"
  }

  /** `incidentCategories[category]`, in declaration order. */
  function SubCategories(c: Category): seq<string> {
    match c
    case CrimeRelated =>
      ["Theft/Burglary", "Assault", "Vandalism", "Illegal Drugs", "Trespassing", "Scams/Fraud"]
    case CommunityDisturbances =>
      ["Noise Complaints", "Public Intoxication", "Disorderly Conduct", "Curfew Violations"]
    case EnvironmentalHealth =>
      ["Garbage Dumping", "Flooding", "Health Hazards", "Fire Incidents"]
    case TrafficRoad => ["Illegal Parking", "Reckless Driving", "Accidents"]
    case MissingPersonsLostItems => ["Missing Person", "Lost & Found"]
    case DomesticCivil => ["Family Disputes", "Land/Property Issues", "Neighbor Conflicts"]
    case AnimalRelated => ["Stray Animals", "Animal Bites"]
  }

  /** Which category a select value names. */
  function CategoryOfLabel(s: string): (c: Option<Category>)
    ensures c.Some? ==> CategoryLabel(c.value) == s
  {
    if s == "Crime-Related Incidents" then Some(CrimeRelated)
    else if s == "Community Disturbances" then Some(CommunityDisturbances)
    else if s == "Environmental & Health Concerns" then Some(EnvironmentalHealth)
    else if s == "Traffic & Road Issues" then Some(TrafficRoad)
    else if s == "Missing Persons & Lost Items" then Some(MissingPersonsLostItems)
    else if s == "Domestic & Civil Disputes" then Some(DomesticCivil)
    else if s == "Animal-Related Incidents" then Some(AnimalRelated)
    else None
  }

  /** Every category is listed once, and its label names it and no other. */
  lemma CategoryLabelsRoundTrip(c: Category)
    ensures c in Categories
    ensures CategoryOfLabel(CategoryLabel(c)) == Some(c)
  {
    assert CategoryOfLabel("Crime-Related Incidents") == Some(CrimeRelated);
    assert CategoryOfLabel("Community Disturbances") == Some(CommunityDisturbances);
    assert CategoryOfLabel("Environmental & Health Concerns") == Some(EnvironmentalHealth);
    assert CategoryOfLabel("Traffic & Road Issues") == Some(TrafficRoad);
    assert CategoryOfLabel("Missing Persons & Lost Items") == Some(MissingPersonsLostItems);
    assert CategoryOfLabel("Domestic & Civil Disputes") == Some(DomesticCivil);
    assert CategoryOfLabel("Animal-Related Incidents") == Some(AnimalRelated);
  }

  /** Which category a sub-category belongs to. */
  function OwnerOf(sub: string): (c: Option<Category>)
    ensures c.Some? ==> sub in SubCategories(c.value)
  {
    if sub in SubCategories(CrimeRelated) then Some(CrimeRelated)
    else if sub in SubCategories(CommunityDisturbances) then Some(CommunityDisturbances)
    else if sub in SubCategories(EnvironmentalHealth) then Some(EnvironmentalHealth)
    else if sub in SubCategories(TrafficRoad) then Some(TrafficRoad)
    else if sub in SubCategories(MissingPersonsLostItems) then Some(MissingPersonsLostItems)
    else if sub in SubCategories(DomesticCivil) then Some(DomesticCivil)
    else if sub in SubCategories(AnimalRelated) then Some(AnimalRelated)
    else None
  }

  /** No sub-category is listed under two categories, so a sub-category
      determines its category. */
  lemma SubCategoryHasOneOwner(sub: string, c: Category)
    ensures sub in SubCategories(c) <==> OwnerOf(sub) == Some(c)
  {
  }

  /** Seeded from the stored user: `reporterName` from its name and
      `location` from its barangay. Neither input is `readOnly`. */
  const Spec: FormSpec := FormSpec(map["reporterName" := NameField, "location" := BarangayField], {}, false)

  /** The mounted form: react-hook-form's values and the `defaultValues` it
      captured at mount (what `reset()` restores), the stored user, the
      category select's own state, `isSubmitting` and the browser probe. */
  datatype Form = Form(
    values: FormValues,
    defaults: FormValues,
    user: Option<Identity>,
    selectedCategory: Option<Category>,
    isSubmitting: bool,
    probe: Probe)

  function Mount(user: Option<Identity>): (f: Form)
    ensures f.values == f.defaults
    ensures f.values.Keys == {"reporterName", "location"}
    ensures f.values["reporterName"] == OrEmpty(IdentityValue(user, NameField))
    ensures f.values["location"] == OrEmpty(IdentityValue(user, BarangayField))
    ensures f.selectedCategory.None? && !f.isSubmitting
    ensures DateInputFor(f.probe) == CalendarPopover
  {
    var seed := Seed(Spec, user, None);
    assert Spec.bound.Keys == {"reporterName", "location"};
    Form(seed, seed, user, None, false, Pending)
  }

  /** The storage handler stores the new user, and the effect on `user` then
      rewrites `reporterName` and `location` unless the user is `null`. */
  function StorageChange(f: Form, user: Option<Identity>): (r: Form)
    ensures r.user == user
    ensures user.None? ==> r.values == f.values
    ensures user.Some? ==> r.values.Keys == f.values.Keys + {"reporterName", "location"}
    ensures user.Some? ==> r.values["reporterName"] == OrEmpty(user.value.name)
    ensures user.Some? ==> r.values["location"] == OrEmpty(user.value.barangay)
    ensures forall k :: k in f.values && k != "reporterName" && k != "location" ==> r.values[k] == f.values[k]
    ensures r == f.(values := r.values, user := user)
  {
    assert Spec.bound.Keys == {"reporterName", "location"};
    f.(values := OnStorageChange(Spec, f.values, user), user := user)
  }

  /** Detection resolving only records its answer. */
  function ProbeResolved(f: Form, userAgent: string, brave: BraveCheck): (r: Form)
    ensures r == f.(probe := r.probe)
    ensures DateInputFor(r.probe) == NativeDateInput <==> IsChromeBrowser(userAgent, brave)
  {
    f.(probe := Detect(userAgent, brave))
  }

  /** The sub-category select's items: the chosen category's list in
      declaration order, or none while no category is chosen. */
  function SubCategoryOptions(f: Form): (opts: seq<string>)
    ensures f.selectedCategory.None? ==> opts == []
    ensures f.selectedCategory.Some? ==> opts == SubCategories(f.selectedCategory.value) && |opts| > 0
    ensures f.selectedCategory.Some? ==> forall s :: s in opts <==> OwnerOf(s) == f.selectedCategory
  {
    match f.selectedCategory
    case None => []
    case Some(c) =>
      assert forall s :: s in SubCategories(c) <==> OwnerOf(s) == Some(c) by {
        forall s ensures s in SubCategories(c) <==> OwnerOf(s) == Some(c) {
          SubCategoryHasOneOwner(s, c);
        }
      }
      SubCategories(c)
  }

  /** The sub-category select is disabled exactly while no category is chosen. */
  predicate SubCategoryDisabled(f: Form) {
    f.selectedCategory.None?
  }

  /** `setSelectedCategory`, followed by the effect that copies a non-empty
      selection into the `category` value. Clearing the selection writes
      nothing, and `subCategory` is never cleared. */
  function SetSelectedCategory(f: Form, sel: Option<Category>): (r: Form)
    ensures r.selectedCategory == sel
    ensures sel.Some? ==> r.values == f.values["category" := Str(CategoryLabel(sel.value))]
    ensures sel.None? ==> r.values == f.values
    ensures Lookup(r.values, "subCategory") == Lookup(f.values, "subCategory")
    ensures r == f.(selectedCategory := sel, values := r.values)
  {
    match sel
    case Some(c) => f.(selectedCategory := sel, values := f.values["category" := Str(CategoryLabel(c))])
    case None => f.(selectedCategory := sel)
  }

  /** The sub-category select's `onValueChange`. */
  function SetSubCategory(f: Form, sub: string): (r: Form)
    ensures r == f.(values := f.values["subCategory" := Str(sub)])
  {
    f.(values := Edit(Spec, f.values, "subCategory", Str(sub)))
  }

  /** Typing into a registered input; no incident field is read-only. */
  function Type(f: Form, key: string, value: JsValue): (r: Form)
    ensures r == f.(values := f.values[key := value])
  {
    f.(values := Edit(Spec, f.values, key, value))
  }

  /** Changing the category leaves a sub-category of the old one in place:
      after picking "Assault" under crime and switching to traffic, the
      form still holds "Assault", which the traffic list does not offer. */
  lemma StaleSubCategory(user: Option<Identity>)
    ensures var f := SetSelectedCategory(SetSubCategory(SetSelectedCategory(Mount(user), Some(CrimeRelated)), "Assault"), Some(TrafficRoad));
      && f.values["subCategory"] == Str("Assault")
      && "Assault" !in SubCategoryOptions(f)
  {
  }

  /** `reader.result.split(",")[1]`: the text between the first comma of the
      data URL and the next one, or nothing when there is no comma. */
  function DataPart(url: string): (d: Option<string>)
    ensures d.Some? ==> ',' !in d.value
    ensures d.None? <==> ',' !in url
  {
    var parts := Split(url, ',');
    SplitSeveralPartsIff(url, ',');
    if |parts| > 1 then Some(parts[1]) else None
  }

  /** A data URL as `readAsDataURL` builds it (section 3 of RFC 2397:
      "data:", the media type, ";base64," and the encoded bytes) yields
      exactly the encoded bytes, since base64 text has no comma. */
  lemma DataPartOfBase64Url(mediaType: string, encoded: string)
    requires ',' !in mediaType && ',' !in encoded
    ensures DataPart("data:" + mediaType + ";base64," + encoded) == Some(encoded)
  {
    var header := "data:" + mediaType + ";base64";
    assert ',' !in header;
    assert "data:" + mediaType + ";base64," + encoded == header + [','] + encoded;
    SplitAtFirst(header, ',', encoded);
    SplitNoSeparator(encoded, ',');
  }

  /** One attachment record per file. */
  function ToAttachment(file: File, url: string): Attachment {
    Attachment(file.name, file.mimeType, DataPart(url))
  }

  /** The files of `data.evidence` when `data.evidence?.length` is truthy. */
  function EvidenceFiles(evidence: JsValue): (files: seq<File>)
    ensures evidence.FileList? ==> files == evidence.files
    ensures !evidence.FileList? ==> files == []
  {
    if evidence.FileList? then evidence.files else []
  }

  /** Converts the files in order; the first file that fails to read aborts
      the whole conversion. */
  function Attachments(files: seq<File>): (r: Option<seq<Attachment>>)
    ensures r.Some? ==> |r.value| == |files|
    decreases |files|
  {
    if |files| == 0 then Some([])
    else
      match files[0].contents
      case ReadFailure => None
      case DataUrl(url) =>
        match Attachments(files[1..])
        case None => None
        case Some(rest) => Some([ToAttachment(files[0], url)] + rest)
  }

  /** One attachment per file, in the same order, carrying the file's name,
      its type and the data part of its data URL; no attachments at all when
      any file fails to read. */
  lemma {:induction false} AttachmentsMeaning(files: seq<File>)
    ensures Attachments(files).None? <==> exists i :: 0 <= i < |files| && files[i].contents.ReadFailure?
    ensures Attachments(files).Some? ==> forall i :: 0 <= i < |files| ==>
      && Attachments(files).value[i].filename == files[i].name
      && Attachments(files).value[i].contentType == files[i].mimeType
      && Attachments(files).value[i].data == DataPart(files[i].contents.url)
    decreases |files|
  {
    if |files| > 0 {
      AttachmentsMeaning(files[1..]);
      if files[0].contents.DataUrl? && Attachments(files[1..]).None? {
        var j :| 0 <= j < |files[1..]| && files[1..][j].contents.ReadFailure?;
        assert files[j + 1].contents.ReadFailure?;
      }
      if Attachments(files).Some? {
        var r := Attachments(files).value;
        forall i | 0 <= i < |files|
          ensures r[i].filename == files[i].name && r[i].contentType == files[i].mimeType
          ensures r[i].data == DataPart(files[i].contents.url)
        {
          if i > 0 {
            assert r[i] == Attachments(files[1..]).value[i - 1];
            assert files[i] == files[1..][i - 1];
          }
        }
      } else if files[0].contents.DataUrl? {
        var j :| 0 <= j < |files[1..]| && files[1..][j].contents.ReadFailure?;
        assert files[j + 1].contents.ReadFailure?;
      }
    }
  }

  /** Conversion distributes over concatenation: attachments keep file order. */
  lemma {:induction false} AttachmentsAppend(a: seq<File>, b: seq<File>)
    requires Attachments(a).Some? && Attachments(b).Some?
    ensures Attachments(a + b) == Some(Attachments(a).value + Attachments(b).value)
    decreases |a|
  {
    if |a| == 0 {
      assert a + b == b;
      assert Attachments(a).value == [];
      assert [] + Attachments(b).value == Attachments(b).value;
    } else {
      var ab := a + b;
      assert ab[0] == a[0] && ab[1..] == a[1..] + b;
      AttachmentsAppend(a[1..], b);
      var head := ToAttachment(a[0], a[0].contents.url);
      var ra, rb := Attachments(a[1..]).value, Attachments(b).value;
      assert Attachments(a) == Some([head] + ra);
      assert Attachments(ab) == Some([head] + (ra + rb));
      assert [head] + (ra + rb) == ([head] + ra) + rb;
    }
  }

  /** The `for ... of` loop of `onSubmit`, one `await` per file. */
  method ConvertEvidence(evidence: JsValue) returns (r: Option<seq<Attachment>>)
    ensures r == Attachments(EvidenceFiles(evidence))
    ensures evidence.Undefined? || evidence == FileList([]) ==> r == Some([])
  {
    var files := EvidenceFiles(evidence);
    var out: seq<Attachment> := [];
    var i := 0;
    while i < |files|
      invariant 0 <= i <= |files|
      invariant Attachments(files[..i]) == Some(out)
    {
      match files[i].contents
      case ReadFailure =>
        AttachmentsMeaning(files);
        return None;
      case DataUrl(url) =>
        var one := [files[i]];
        assert one[0] == files[i] && one[1..] == [];
        assert Attachments(one[1..]) == Some([]);
        assert one[0].contents == DataUrl(url);
        assert [ToAttachment(files[i], url)] + [] == [ToAttachment(files[i], url)];
        assert Attachments(one) == Some([ToAttachment(files[i], url)]);
        AttachmentsAppend(files[..i], [files[i]]);
        assert files[..i + 1] == files[..i] + [files[i]];
        out := out + [ToAttachment(files[i], url)];
      i := i + 1;
    }
    assert files[..i] == files;
    return Some(out);
  }

  /** The request body: `{...data, evidence: evidenceFiles}`. */
  function RequestBody(values: FormValues, attachments: seq<Attachment>): (body: FormValues)
    ensures body.Keys == values.Keys + {"evidence"}
    ensures body["evidence"] == AttachmentList(attachments)
    ensures forall k :: k in values && k != "evidence" ==> body[k] == values[k]
  {
    values["evidence" := AttachmentList(attachments)]
  }

  const SubmitFallback: string := "Failed to submit incident report. Please try again."

  datatype Toast = NoToast | SuccessToast | ErrorToast(message: JsValue)

  /** One press of Submit: the form after it settles, the body posted (if
      any) and the toast shown. */
  datatype SubmitStep = SubmitStep(form: Form, posted: Option<FormValues>, toast: Toast)

  /** `onSubmit` from `setIsSubmitting(true)` to the `finally`. `data` is the
      value set handed to `onSubmit` when the press was validated: the body is
      built from it, while the inputs stay live during the `await`s, so `f`
      may hold later edits. `response` is what the server would answer; it is
      not consulted when no request goes out. */
  function CompleteSubmit(f: Form, data: FormValues, response: Response): (r: SubmitStep)
    requires f.isSubmitting
    ensures !r.form.isSubmitting
    ensures r.form.defaults == f.defaults && r.form.user == f.user && r.form.probe == f.probe
    ensures r.posted.Some? <==> Attachments(EvidenceFiles(Lookup(data, "evidence"))).Some?
    ensures r.posted.Some? ==>
      r.posted == Some(RequestBody(data, Attachments(EvidenceFiles(Lookup(data, "evidence"))).value))
    ensures r.posted.Some? && response.Answered? && response.status == 201 ==>
      r.form.values == f.defaults && r.form.selectedCategory.None? && r.toast == SuccessToast
    ensures !(r.posted.Some? && response.Answered? && response.status == 201) ==>
      r.form.values == f.values && r.form.selectedCategory == f.selectedCategory
    ensures r.posted.None? ==> r.toast == ErrorToast(Str(SubmitFallback))
    ensures r.posted.Some? && Rejects(response) ==> r.toast == ErrorToast(ErrorText(ServerMessage(response), SubmitFallback))
    ensures r.posted.Some? && !Rejects(response) && response.status != 201 ==> r.toast == NoToast
  {
    var settled := f.(isSubmitting := false);
    match Attachments(EvidenceFiles(Lookup(data, "evidence")))
    case None => SubmitStep(settled, None, ErrorToast(Str(SubmitFallback)))
    case Some(atts) =>
      var body := RequestBody(data, atts);
      if Rejects(response) then
        SubmitStep(settled, Some(body), ErrorToast(ErrorText(ServerMessage(response), SubmitFallback)))
      else if response.status == 201 then
        SubmitStep(settled.(values := f.defaults, selectedCategory := None), Some(body), SuccessToast)
      else
        SubmitStep(settled, Some(body), NoToast)
  }

  /** Submit and Cancel are disabled while a submission is in flight. */
  predicate ButtonsEnabled(f: Form) {
    !f.isSubmitting
  }

  /** The form while its request is in flight. */
  function BeginSubmit(f: Form): (r: Form)
    ensures !ButtonsEnabled(r)
    ensures r == f.(isSubmitting := true)
  {
    f.(isSubmitting := true)
  }

  /** Pressing Submit: nothing while disabled, nothing but error messages when
      validation fails, otherwise the whole submission. */
  function Submit(f: Form, valid: bool, response: Response): (r: SubmitStep)
    ensures !ButtonsEnabled(f) ==> r == SubmitStep(f, None, NoToast)
    ensures ButtonsEnabled(f) ==> !r.form.isSubmitting
    ensures ButtonsEnabled(f) && !valid ==> r == SubmitStep(f, None, NoToast)
    ensures ButtonsEnabled(f) && valid ==> r == CompleteSubmit(BeginSubmit(f), f.values, response)
  {
    if !ButtonsEnabled(f) || !valid then SubmitStep(f, None, NoToast)
    else CompleteSubmit(BeginSubmit(f), f.values, response)
  }

  /** A storage change while the request is in flight rewrites the inputs but
      not the body: the body is the value set captured when Submit was pressed. */
  lemma InFlightChangeNotPosted(f: Form, user: Option<Identity>, response: Response)
    requires ButtonsEnabled(f)
    ensures CompleteSubmit(StorageChange(BeginSubmit(f), user), f.values, response).posted
         == Submit(f, true, response).posted
  {
  }

  /** The Cancel button: back to the mount-time values with no category chosen. */
  function Cancel(f: Form): (r: Form)
    ensures !ButtonsEnabled(f) ==> r == f
    ensures ButtonsEnabled(f) ==> r == f.(values := f.defaults, selectedCategory := None)
    ensures r.user == f.user && r.isSubmitting == f.isSubmitting
  {
    if ButtonsEnabled(f) then f.(values := f.defaults, selectedCategory := None) else f
  }

  /** While a request is in flight Submit and Cancel stay disabled whatever
      else happens: only the submission's `finally` enables them again. */
  lemma InFlightStaysDisabled(f: Form, user: Option<Identity>, userAgent: string, brave: BraveCheck,
                              sel: Option<Category>, sub: string, key: string, value: JsValue)
    requires !ButtonsEnabled(f)
    ensures !ButtonsEnabled(StorageChange(f, user))
    ensures !ButtonsEnabled(ProbeResolved(f, userAgent, brave))
    ensures !ButtonsEnabled(SetSelectedCategory(f, sel))
    ensures !ButtonsEnabled(SetSubCategory(f, sub))
    ensures !ButtonsEnabled(Type(f, key, value))
    ensures Cancel(f) == f
  {
  }

  /** Cancel restores the identity read at mount, not the latest one: after
      a storage change the reporter name goes back to the first user's. */
  lemma CancelRestoresMountIdentity(u1: Identity, u2: Identity)
    ensures Cancel(StorageChange(Mount(Some(u1)), Some(u2))).values["reporterName"] == OrEmpty(u1.name)
    ensures StorageChange(Mount(Some(u1)), Some(u2)).values["reporterName"] == OrEmpty(u2.name)
  {
  }

  /** Only a 201 clears the form: every other answer leaves what the user
      entered in place for a retry, and a retry that gets 201 then clears it. */
  lemma FailedSubmitKeepsValues(f: Form, failure: Response, success: Response)
    requires ButtonsEnabled(f)
    requires Attachments(EvidenceFiles(Lookup(f.values, "evidence"))).Some?
    requires failure.NoResponse? || failure.status != 201
    requires success.Answered? && success.status == 201
    ensures var first := Submit(f, true, failure);
      && first.form.values == f.values
      && first.posted.Some?
      && Submit(first.form, true, success).form.values == f.defaults
      && Submit(first.form, true, success).posted == first.posted
  {
  }

  /** With no evidence the body carries an empty attachment list. */
  lemma NoEvidenceEmptyList(f: Form, response: Response)
    requires ButtonsEnabled(f)
    requires Lookup(f.values, "evidence") in [Undefined, Null, FileList([])]
    ensures Submit(f, true, response).posted == Some(RequestBody(f.values, []))
  {
  }
}
