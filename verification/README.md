# Gasan barangay system: forms and dashboard

This is a Dafny model of the browser-side core of a barangay (village) management
system. It covers five React components:

- **Incident report form.** A category and sub-category picker. The reporter's
  name and barangay are seeded from the stored user. Evidence files are turned
  into base64 attachments, the report is posted, and the form reacts to the
  server's answer. Cancel restores the form.
- **Cedula and barangay-clearance request forms.** Their values are seeded
  from the stored identity and from the caller's `initialData`. The identity
  fields are `readOnly` and are re-applied when another tab changes
  `localStorage`. Every change is reported to the parent, and submission
  forwards the values with a document tag.
- **Browser sniffing.** All three forms use it to choose between the native
  date input and a calendar popover. In the two request forms the popover
  disables future dates and dates before `new Date("1900-01-01")`; in a zone
  that was east of UTC on 1900-01-01 this also disables 1900-01-01 itself.
  The incident form's popover sets no bounds.
- **The secretary's residents page.** A case-insensitive search over name and
  address, avatar initials, and a grid/list toggle.
- **The dashboard shell.** Which page a `tab` shows, the role-dependent sidebar,
  which sidebar item is highlighted, and logout.

Module layout:

- `JsValues` holds the JavaScript values the components handle, with truthiness and `x || ""`.
- `Text` holds `toLowerCase`, `includes`, `split` and `join`.
- `Http` holds the axios outcome policy.
- `Browser` holds the browser sniffing.
- `Calendar` holds the date-of-birth bounds.
- `FormController` is the react-hook-form pattern shared by the three forms.
- `CedulaForm`, `ClearanceForm`, `IncidentForm`, `Residents` and `Dashboard` model one component each.

Form values are a `map<string, JsValue>`: a missing key reads as `undefined`.
Every asynchronous input becomes a parameter:

- the stored user;
- the user agent and the outcome of `navigator.brave.isBrave()`;
- each file's `FileReader` result;
- the HTTP response, as a status and body message, or no response at all;
- the current instant, and for each calendar date the time-zone offset in force at its local midnight.

Where the documented behaviour and the code differ, the model follows the code:

- Choosing another incident category does not clear an already chosen
  sub-category (`IncidentForm.StaleSubCategory`).
- `reset()` restores the values captured at mount, not the latest identity.
  react-hook-form keeps its first `defaultValues`.
- A 2xx answer other than 201 (incident submit) or 200 (logout) resolves the
  request but triggers neither the success path nor the error toast.

## Model

| member | source | states |
|---|---|---|
| JsValues.OrEmpty | frontend/src/components/forms/RequestForm/CedulaForm.jsx:60-72 | `x \|\| ""` keeps a truthy value and turns every falsy one into the empty string |
| JsValues.OrEmptyFills | frontend/src/components/forms/RequestForm/CedulaForm.jsx:60-72 | every defaulted field holds a truthy value or the empty string |
| JsValues.Get | frontend/src/components/forms/RequestForm/CedulaForm.jsx:62-72 | `record?.field`: `undefined` for a missing record or key, otherwise the stored value |
| JsValues.IdentityValue | frontend/src/components/forms/RequestForm/CedulaForm.jsx:60-61 | `user?.field` of an identity field: `undefined` without a user |
| Text.Lower | frontend/src/components/dashboard/secretary/Residents.jsx:28-29 | lowercasing keeps the length and maps each character through the ASCII letter lowering |
| Text.LowerIdempotent | frontend/src/components/dashboard/secretary/Residents.jsx:28-29 | lowercasing a lowercased string changes nothing |
| Text.IncludesIsSubstring | frontend/src/components/dashboard/secretary/Residents.jsx:28-29 | the left-to-right `includes` scan is true exactly when the term occurs at some position |
| Text.IncludesTransitive | frontend/src/components/dashboard/secretary/Residents.jsx:28-29 | a string containing a string that contains a term contains the term |
| Text.IncludesEmpty | frontend/src/components/dashboard/secretary/Residents.jsx:28-29 | every string includes the empty term |
| Text.Includes | frontend/src/components/dashboard/secretary/Residents.jsx:28-29 | a term is only found in a string at least as long; the full meaning is stated by `Text.IncludesIsSubstring` |
| Text.Split | frontend/src/components/dashboard/secretary/Residents.jsx:84-86 | `split` on one character yields at least one piece and no piece holds the separator |
| Text.JoinSplit | frontend/src/components/dashboard/secretary/Residents.jsx:84-86 | joining the pieces with the separator gives the original string back |
| Text.Join | frontend/src/components/dashboard/secretary/Residents.jsx:85 | the first piece starts the result and the separator appears once there are two pieces; `Text.JoinSplit` makes it the inverse of `split` |
| Text.SplitAtFirst | frontend/src/components/forms/IncidentReportsForm.jsx:193 | the text before the first separator is the first piece, followed by the pieces of the rest |
| Text.SplitSeveralPartsIff | frontend/src/components/forms/IncidentReportsForm.jsx:193 | there is a second piece exactly when the separator occurs |
| Http.ErrorText | frontend/src/components/forms/IncidentReportsForm.jsx:176-181 | the error toast shows the server's message when it is truthy and the fixed fallback otherwise, so it is never empty |
| Http.ServerMessage | frontend/src/components/forms/IncidentReportsForm.jsx:178-179 | without a response the server message is `undefined` |
| Http.Rejects | frontend/src/components/forms/IncidentReportsForm.jsx:171-176 | axios rejects for no response or a status outside 200-299; `IncidentForm.CompleteSubmit` and `Dashboard.CompleteLogout` state which toast each outcome gives |
| Browser.Detect | frontend/src/components/forms/IncidentReportsForm.jsx:71-92 | a finished detection always records an answer |
| Browser.IsChromeBrowser | frontend/src/components/forms/IncidentReportsForm.jsx:84-90 | the `isChromeBrowser` condition; `Browser.NativeDateInputIff` states when it holds |
| Browser.DateInputFor | frontend/src/components/forms/IncidentReportsForm.jsx:252 | the native date input is used exactly when detection said Chrome |
| Browser.NativeDateInputIff | frontend/src/components/forms/IncidentReportsForm.jsx:84-90 | native input iff the lowercased agent contains "chrome", contains neither "edg" nor "opr", and Brave did not answer truthily |
| Browser.PendingUsesCalendar | frontend/src/components/forms/IncidentReportsForm.jsx:56 | before detection resolves the calendar popover is shown |
| Browser.BraveFailureIsNotBrave | frontend/src/components/forms/IncidentReportsForm.jsx:74-82 | a missing Brave API, a rejected Brave promise and a `false` answer give the same decision |
| Browser.IsBrave | frontend/src/components/forms/IncidentReportsForm.jsx:74-82 | only a resolved, truthy `isBrave()` answer counts as Brave; `Browser.BraveFailureIsNotBrave` states the failure cases |
| Browser.DetectIgnoresCase | frontend/src/components/forms/RequestForm/CedulaForm.jsx:38-43 | user agents differing only in letter case get the same decision |
| Browser.EdgeUsesCalendar | frontend/src/components/forms/RequestForm/BarangayClearanceForm.jsx:74-79 | an agent mentioning "Edg" anywhere never gets the native input |
| Calendar.Today | frontend/src/components/forms/RequestForm/CedulaForm.jsx:165 | today's local midnight is at or before now and the next local midnight after it |
| Calendar.MidnightMonotone | frontend/src/components/forms/RequestForm/CedulaForm.jsx:165 | comparing dates at local midnight orders them as their day numbers |
| Calendar.SelectableRange | frontend/src/components/forms/RequestForm/CedulaForm.jsx:164-166 | with the lower bound at local midnight, a day is selectable iff it lies between 1900-01-01 and today, both included |
| Calendar.AsWrittenAgreesWestOfUtc | frontend/src/components/forms/RequestForm/BarangayClearanceForm.jsx:190-192 | in UTC and west of it the callback as written agrees with the intended range |
| Calendar.AsWrittenDisablesFirstDayEastOfUtc | frontend/src/components/forms/RequestForm/BarangayClearanceForm.jsx:190-192 | east of UTC the callback as written disables 1900-01-01 itself, which the intended range allows |
| Calendar.AsWrittenRange | frontend/src/components/forms/RequestForm/CedulaForm.jsx:164-166 | each cell judged with the offset in force at its own local midnight: with the callback as written it is selectable iff it is not after the day containing now and not before 1900-01-01, and 1900-01-01 itself only in a zone at or west of UTC on that date |
| Calendar.DisabledAsWritten | frontend/src/components/forms/RequestForm/CedulaForm.jsx:164-166 | the `disabled` callback as written, lower bound at UTC midnight of 1900-01-01; the days it leaves selectable are stated by `Calendar.AsWrittenRange` |
| Calendar.Disabled | frontend/src/components/forms/RequestForm/CedulaForm.jsx:164-166 | the callback with the lower bound at local midnight of 1900-01-01; its selectable days are stated by `Calendar.SelectableRange` |
| FormController.IdentityFields | frontend/src/components/forms/RequestForm/BarangayClearanceForm.jsx:50-52 | exactly the identity-bound fields, each `user.field \|\| ""` |
| FormController.Seed | frontend/src/components/forms/RequestForm/BarangayClearanceForm.jsx:27-36 | the defaults hold the identity fields and the carried fields, each from its own source with `\|\| ""`, and every default is filled |
| FormController.OnStorageChange | frontend/src/components/forms/RequestForm/CedulaForm.jsx:89-97 | a storage change that finds a user rewrites the identity fields and keeps every other field; one that finds none changes nothing |
| FormController.ReseedMatchesSeed | frontend/src/components/forms/RequestForm/BarangayClearanceForm.jsx:44-54 | a storage change applied to the seed equals seeding with the new user, so the data from `initialData` survives |
| FormController.LastStorageChangeWins | frontend/src/components/forms/RequestForm/CedulaForm.jsx:89-97 | of two storage changes that find users, the later one decides the identity fields |
| FormController.Edit | frontend/src/components/forms/RequestForm/CedulaForm.jsx:116-121 | a `readOnly` identity field cannot be edited; any other edit writes exactly that field |
| FormController.Notifications | frontend/src/components/forms/RequestForm/CedulaForm.jsx:77-80 | the value set after each event, starting with the seed, is a full value set the parent receives; it is the values after exactly that prefix of the events |
| FormController.Step | frontend/src/components/forms/RequestForm/CedulaForm.jsx:82-97 | one event, an edit or a storage change; `FormController.ReadOnlyFieldsFollowIdentity` states what any sequence of them keeps |
| FormController.Run | frontend/src/components/forms/RequestForm/CedulaForm.jsx:82-97 | the values after a sequence of events; no field is ever removed |
| FormController.LatestIdentity | frontend/src/components/forms/RequestForm/CedulaForm.jsx:90-96 | the identity last applied to the fields: once a user was found one stays, and any other than the first came from a storage change |
| FormController.ParentSeesCurrentValues | frontend/src/components/forms/RequestForm/CedulaForm.jsx:77-80 | the parent's last notification is the form's current value set |
| FormController.SeedShowsIdentity | frontend/src/components/forms/RequestForm/CedulaForm.jsx:60-61 | the seeded identity fields show the stored user |
| FormController.ShowsIdentityAt | frontend/src/components/forms/RequestForm/CedulaForm.jsx:60-61 | a form showing an identity reads each identity field as that user's field |
| FormController.ReadOnlyFieldsFollowIdentity | frontend/src/components/forms/RequestForm/CedulaForm.jsx:89-121 | after any mix of typing and storage changes, read-only identity fields show the latest user found in storage |
| FormController.Mount | frontend/src/components/forms/RequestForm/CedulaForm.jsx:24-73 | a mounted form holds the seed and shows the calendar popover until detection resolves |
| FormController.ProbeResolved | frontend/src/components/forms/RequestForm/CedulaForm.jsx:27-45 | detection changes no value and picks the native input iff the browser is Chrome |
| FormController.CanPickDateOfBirth | frontend/src/components/forms/RequestForm/CedulaForm.jsx:127-166 | the native input bounds no date; the popover runs the callback as written on each cell with that date's offset, so 1900-01-01 can be picked only in a zone at or west of UTC on that date, and nothing after today |
| FormController.StorageChange | frontend/src/components/forms/RequestForm/CedulaForm.jsx:90-96 | the remembered user is replaced, `null` included, and the values follow `OnStorageChange` |
| FormController.KindOfTag | frontend/src/components/forms/RequestForm/CedulaForm.jsx:107 | a recognised tag names the document kind whose tag it is |
| FormController.KindTag | frontend/src/components/forms/RequestForm/CedulaForm.jsx:107 | the tag strings "cedula" and "barangay-clearance"; `FormController.KindTagRoundTrip` states they read back as their kinds |
| FormController.KindTagRoundTrip | frontend/src/components/forms/RequestForm/BarangayClearanceForm.jsx:88-90 | every kind's tag is read back as that kind, so a receiver can tell the two documents apart |
| FormController.Submit | frontend/src/components/forms/RequestForm/BarangayClearanceForm.jsx:88-90 | the validated data is forwarded unchanged with a tag that identifies its kind |
| CedulaForm.SpecWellFormed | frontend/src/components/forms/RequestForm/CedulaForm.jsx:59-73 | the identity fields name and barangay are distinct from the eleven fields taken from `initialData` |
| CedulaForm.SeedFields | frontend/src/components/forms/RequestForm/CedulaForm.jsx:57-74 | the seed holds exactly name, barangay and the eleven carried fields, and a missing or falsy one becomes "" |
| CedulaForm.StorageChangeRewritesIdentityOnly | frontend/src/components/forms/RequestForm/CedulaForm.jsx:89-97 | a storage change rewrites name and barangay only when a user is found, and keeps every other field |
| CedulaForm.IdentityFieldsReadOnly | frontend/src/components/forms/RequestForm/CedulaForm.jsx:114-121 | after any events, name and barangay show the latest stored user |
| CedulaForm.SubmitTagsCedula | frontend/src/components/forms/RequestForm/CedulaForm.jsx:105-108 | submission forwards the values tagged "cedula" |
| CedulaForm.ParseCivilStatus | frontend/src/components/forms/RequestForm/CedulaForm.jsx:211-214 | a recognised civil status is the one whose label was given |
| CedulaForm.CivilStatusLabel | frontend/src/components/forms/RequestForm/CedulaForm.jsx:211-214 | the four status labels; `CedulaForm.CivilStatusDomain` states they read back as their statuses |
| CedulaForm.CivilStatusDomain | frontend/src/components/forms/RequestForm/CedulaForm.jsx:211-214 | the select offers exactly Single, Married, Widowed and Separated, and each label parses back to its status |
| CedulaForm.ChooseCivilStatus | frontend/src/components/forms/RequestForm/CedulaForm.jsx:82-87 | choosing a status writes its label to `civilStatus` and changes no other field |
| ClearanceForm.SeedFields | frontend/src/components/forms/RequestForm/BarangayClearanceForm.jsx:27-36 | the seed holds exactly name, email, barangay, purpose, contactNumber and dateOfBirth from their sources with `\|\| ""` |
| ClearanceForm.StorageChangeRewritesIdentityOnly | frontend/src/components/forms/RequestForm/BarangayClearanceForm.jsx:45-54 | a storage change rewrites name, email and barangay only when a user is found, and keeps every other field |
| ClearanceForm.IdentityFieldsReadOnly | frontend/src/components/forms/RequestForm/BarangayClearanceForm.jsx:95-124 | after any events, the three read-only identity fields show the latest stored user |
| ClearanceForm.SubmitTagsClearance | frontend/src/components/forms/RequestForm/BarangayClearanceForm.jsx:88-90 | submission forwards the values tagged "barangay-clearance" |
| IncidentForm.CategoryOfLabel | frontend/src/components/forms/IncidentReportsForm.jsx:24-50 | a recognised select value is the label of the category it names |
| IncidentForm.CategoryLabel | frontend/src/components/forms/IncidentReportsForm.jsx:25-49 | the seven category names; `IncidentForm.CategoryLabelsRoundTrip` states they are distinct and read back |
| IncidentForm.SubCategories | frontend/src/components/forms/IncidentReportsForm.jsx:24-50 | the sub-category lists of `incidentCategories`; `IncidentForm.SubCategoryHasOneOwner` states they are disjoint |
| IncidentForm.OwnerOf | frontend/src/components/forms/IncidentReportsForm.jsx:24-50 | the category a sub-category belongs to, which lists it |
| IncidentForm.CategoryLabelsRoundTrip | frontend/src/components/forms/IncidentReportsForm.jsx:24-50 | every category is offered and its label names it and no other |
| IncidentForm.SubCategoryHasOneOwner | frontend/src/components/forms/IncidentReportsForm.jsx:24-50 | no sub-category is listed under two categories |
| IncidentForm.Mount | frontend/src/components/forms/IncidentReportsForm.jsx:110-116 | the form starts with reporterName and location from the stored user, no category, not submitting, and these values as the reset target |
| IncidentForm.StorageChange | frontend/src/components/forms/IncidentReportsForm.jsx:59-68 | the stored user is replaced and the reporter fields follow it only when a user is found; the reset target, category, submission state and probe are untouched |
| IncidentForm.ProbeResolved | frontend/src/components/forms/IncidentReportsForm.jsx:92 | detection changes only the probe, and picks the native input iff the browser is Chrome |
| IncidentForm.SubCategoryOptions | frontend/src/components/forms/IncidentReportsForm.jsx:238-243 | no options without a category; otherwise exactly `incidentCategories[selectedCategory]` in declared order, so a sub-category is offered iff the chosen category owns it |
| IncidentForm.SubCategoryDisabled | frontend/src/components/forms/IncidentReportsForm.jsx:232 | the sub-category select is disabled while no category is chosen, which is exactly when `IncidentForm.SubCategoryOptions` offers nothing |
| IncidentForm.SetSelectedCategory | frontend/src/components/forms/IncidentReportsForm.jsx:127-135 | choosing a category writes its label to `category`, leaves `subCategory` as it was, and touches nothing outside the values and the selection |
| IncidentForm.SetSubCategory | frontend/src/components/forms/IncidentReportsForm.jsx:231 | choosing a sub-category writes `subCategory` and nothing else in the form |
| IncidentForm.Type | frontend/src/components/forms/IncidentReportsForm.jsx:305-335 | typing into a field writes that field, the reporter fields included, and nothing else in the form |
| IncidentForm.StaleSubCategory | frontend/src/components/forms/IncidentReportsForm.jsx:127-135 | after switching category a sub-category of the previous one stays in the values |
| IncidentForm.DataPart | frontend/src/components/forms/IncidentReportsForm.jsx:193 | the part after the first comma contains no comma, and it is missing exactly when the URL has no comma |
| IncidentForm.DataPartOfBase64Url | frontend/src/components/forms/IncidentReportsForm.jsx:193 | for a `data:<type>;base64,<data>` URL as in section 3 of RFC 2397, the extracted part is the encoded data |
| IncidentForm.EvidenceFiles | frontend/src/components/forms/IncidentReportsForm.jsx:143 | a file list yields its files; anything else yields none |
| IncidentForm.Attachments | frontend/src/components/forms/IncidentReportsForm.jsx:142-152 | a conversion that succeeds yields one attachment per file |
| IncidentForm.AttachmentsMeaning | frontend/src/components/forms/IncidentReportsForm.jsx:142-152 | conversion fails iff some file fails to read; otherwise attachment i carries file i's name, type and base64 payload |
| IncidentForm.AttachmentsAppend | frontend/src/components/forms/IncidentReportsForm.jsx:144-151 | converting two lists one after the other gives the attachments of both in order |
| IncidentForm.ToAttachment | frontend/src/components/forms/IncidentReportsForm.jsx:146-150 | one `{filename, contentType, data}` record per file; `IncidentForm.DataPartOfBase64Url` states what `data` holds |
| IncidentForm.ConvertEvidence | frontend/src/components/forms/IncidentReportsForm.jsx:142-152 | the loop builds exactly the attachments of the evidence files, and an empty or missing evidence list yields none |
| IncidentForm.RequestBody | frontend/src/components/forms/IncidentReportsForm.jsx:155-158 | the body is the values with `evidence` replaced by the attachment list |
| IncidentForm.CompleteSubmit | frontend/src/components/forms/IncidentReportsForm.jsx:137-185 | the body is built from the data captured at the press; posting happens iff that evidence converts; 201 resets to the mount values with a success toast; a rejection shows the server or fallback message; other outcomes keep the live values; submitting always ends |
| IncidentForm.BeginSubmit | frontend/src/components/forms/IncidentReportsForm.jsx:139 | submitting disables both buttons and changes nothing else |
| IncidentForm.ButtonsEnabled | frontend/src/components/forms/IncidentReportsForm.jsx:378-382 | Submit and Cancel are enabled exactly while no submission is in flight; `IncidentForm.Submit` and `IncidentForm.Cancel` state that a press while disabled changes nothing |
| IncidentForm.Submit | frontend/src/components/forms/IncidentReportsForm.jsx:137-139 | a disabled button or invalid values do nothing; an enabled, valid press marks the form submitting and completes the submission with the values of that moment |
| IncidentForm.InFlightChangeNotPosted | frontend/src/components/forms/IncidentReportsForm.jsx:137-158 | a storage change during the request rewrites the inputs but not the posted body, which is the data captured at the press |
| IncidentForm.InFlightStaysDisabled | frontend/src/components/forms/IncidentReportsForm.jsx:139-184 | while a request is in flight no storage change, detection, selection, typing or Cancel press enables Submit and Cancel again |
| IncidentForm.Cancel | frontend/src/components/forms/IncidentReportsForm.jsx:371-379 | an enabled cancel restores the mount values and clears the category and nothing else; while submitting it does nothing |
| IncidentForm.CancelRestoresMountIdentity | frontend/src/components/forms/IncidentReportsForm.jsx:110-124 | after a storage change, Cancel puts back the reporter name read at mount, not the new user's |
| IncidentForm.FailedSubmitKeepsValues | frontend/src/components/forms/IncidentReportsForm.jsx:171-184 | a failed submission keeps every value, so a retry posts the same body |
| IncidentForm.NoEvidenceEmptyList | frontend/src/components/forms/IncidentReportsForm.jsx:142-158 | without evidence files the posted body carries an empty evidence list |
| Residents.Filter | frontend/src/components/dashboard/secretary/Residents.jsx:26-30 | every listed resident comes from the list and matches the term, and the list never grows |
| Residents.Matches | frontend/src/components/dashboard/secretary/Residents.jsx:27-30 | the filter callback; `Residents.FilterMembership` and `Residents.FilterIgnoresCase` state what it admits |
| Residents.FilterIsSubsequence | frontend/src/components/dashboard/secretary/Residents.jsx:26-30 | the result keeps residents in their original order |
| Residents.FilterMembership | frontend/src/components/dashboard/secretary/Residents.jsx:26-30 | a resident is listed iff it is in the list and its lowercased name or address contains the lowercased term |
| Residents.EmptyTermKeepsAll | frontend/src/components/dashboard/secretary/Residents.jsx:23-30 | the initial empty search lists everyone |
| Residents.FilterIgnoresCase | frontend/src/components/dashboard/secretary/Residents.jsx:28-29 | terms that differ only in letter case list the same residents |
| Residents.RefinedTermNarrows | frontend/src/components/dashboard/secretary/Residents.jsx:26-30 | extending the term lists a subsequence of the previous result |
| Residents.InitialsAreWordStarts | frontend/src/components/dashboard/secretary/Residents.jsx:83-88 | the avatar initials are exactly the characters that start a word |
| Residents.Initials | frontend/src/components/dashboard/secretary/Residents.jsx:84-87 | at most one initial per space-separated word, and never a space; `Residents.InitialsAreWordStarts` says which characters |
| Residents.WordStartsShape | frontend/src/components/dashboard/secretary/Residents.jsx:83-88 | initials contain no space and are never longer than the name |
| Residents.Toggle | frontend/src/components/dashboard/secretary/Residents.jsx:32-34 | toggling always changes the view mode |
| Residents.ToggleTwice | frontend/src/components/dashboard/secretary/Residents.jsx:24-34 | the page opens in grid mode and toggling twice returns to the same mode |
| Residents.Render | frontend/src/components/dashboard/secretary/Residents.jsx:69-71 | grid mode shows cards and list mode shows the table, and either shows exactly the filtered residents |
| Residents.ToggleKeepsResidents | frontend/src/components/dashboard/secretary/Residents.jsx:216-219 | both views show the same filtered residents |
| Dashboard.PageFor | frontend/src/components/dashboard/dashboard.jsx:51 | with no tab the dashboard shows Overview |
| Dashboard.TabKey | frontend/src/components/dashboard/dashboard.jsx:50-51 | the property key `componentMap[tab]` reads, "undefined" for a missing tab; `Dashboard.PageFor` states that no tab shows Overview |
| Dashboard.RenderedAsWritten | frontend/src/components/dashboard/dashboard.jsx:51 | `componentMap[tab] \|\| Overview` as written: it yields an inherited member exactly for the inherited property names |
| Dashboard.PageForFallsBack | frontend/src/components/dashboard/dashboard.jsx:37-51 | a listed tab shows its mapped page, any other tab shows Overview |
| Dashboard.AsWrittenAgreesOffPrototype | frontend/src/components/dashboard/dashboard.jsx:51 | apart from names inherited from `Object.prototype`, the lookup as written renders the intended page |
| Dashboard.ConstructorTabRendersNoPage | frontend/src/components/dashboard/dashboard.jsx:51 | `tab=constructor` renders `Object` instead of falling back to Overview |
| Dashboard.MenuTabsWithoutPage | frontend/src/components/dashboard/dashboard.jsx:37-48 | the "settings" and "residents" tabs have no page and show Overview |
| Dashboard.MenuKeys | frontend/src/components/dashboard/dashboard.jsx:76-131 | every menu has five entries |
| Dashboard.SidebarItems | frontend/src/components/dashboard/dashboard.jsx:76-131 | role "user" gets the user menu and every other role (or none) the staff menu, each href naming its tab |
| Dashboard.IsPlainUser | frontend/src/components/dashboard/dashboard.jsx:77 | `currentUser?.role === "user"`; `Dashboard.SidebarItems` states which menu each answer selects |
| Dashboard.HrefKeyOfTabHref | frontend/src/components/dashboard/dashboard.jsx:150 | the second "="-piece of a menu href is its tab key |
| Dashboard.HrefKey | frontend/src/components/dashboard/dashboard.jsx:150 | the second "="-piece of an href is missing exactly when the href has no "=", and never contains "=" |
| Dashboard.IsActive | frontend/src/components/dashboard/dashboard.jsx:150 | the highlight test `tab === item.href.split("=")[1]`; `Dashboard.ActiveItem` states it holds iff the tab is the item's key |
| Dashboard.ActiveItem | frontend/src/components/dashboard/dashboard.jsx:146-154 | an item is highlighted iff the tab is its key |
| Dashboard.OneActiveItem | frontend/src/components/dashboard/dashboard.jsx:146-154 | at most one sidebar item is highlighted for any tab |
| Dashboard.CompleteLogout | frontend/src/components/dashboard/dashboard.jsx:57-74 | status 200 clears the token and user and goes to sign-in; a rejection shows the error toast; every outcome re-enables the button |
| Dashboard.Logout | frontend/src/components/dashboard/dashboard.jsx:189-191 | while a logout is in flight the confirm button does nothing; otherwise the press marks the logout in flight and completes it with the server's answer |
| Dashboard.TokenRemovedOnlyOn200 | frontend/src/components/dashboard/dashboard.jsx:62-67 | the token is removed, and sign-in is reached, iff the answer is 200 |

## Left out

- Rendering, styling, icons, tooltips, dialogs and the avatar image: only the state they display is modelled.
- Network, storage and file access are not performed. `axios.post`, `localStorage`, the `storage` event, `navigator.brave` and `FileReader` become parameters of the functions that consume their results.
- The authorization header and request URLs are not modelled: they change no component state.
- zod validation is not modelled. Its verdict is the `valid` parameter of `IncidentForm.Submit`. The request forms forward the watched values, and the incident form builds its request body from them, rather than from the data as the schema would transform it.
- react-hook-form internals (registration, error messages, re-render scheduling) are not modelled. `watch()` is the current value map; `setValue` and `reset()` are map updates.
- `date-fns` formatting and the popover's month navigation are not modelled. Dates are day numbers, and the selected date is stored as an opaque value.
- The incident form's date and time fields have no bounds in the source, so only the request forms' calendar is modelled.
- `console.log` / `console.error` output is not modelled. Toasts are recorded as which toast appears, not as rendered UI.
- Text.Lower: lowercases ASCII letters only, not the full Unicode case mapping of `toLowerCase`.
- JavaScript numbers are integers here; no form value depends on fractions.
- An `evidence` value that is not a `FileList` is treated as no files. This assumes the validation schema passes the `FileList` through unchanged; the schema is not part of this model.
- Residents.InitialsAreWordStarts: a string here is a sequence of whole characters, while `n[0]` takes one UTF-16 code unit, so for a word starting with a character outside the Basic Multilingual Plane the source shows a lone surrogate where the model shows the whole character.
- FormController.Notifications: one notification per event rather than one per render. The source also notifies, with unchanged values, when detection resolves or another render happens, and sends nothing for typing into a `readOnly` field, where the model repeats the unchanged values. Every value set the model lists is one the parent receives.
- Dashboard.CompleteLogout: the store's `logout()` action is taken to clear the current user. The store slice is not part of this model.
- The residents list view component and the page that composes the residents page are not part of this model. The list view repeats the initials expression modelled by `Residents.InitialsAreWordStarts`.
- Residents: `mockResidents`, the selected-resident dialog and `setResidents` (never called) are not modelled beyond the list being filtered.
- Dashboard.PageFor: its own contract states only the no-tab case. The per-tab behaviour is stated by `Dashboard.PageForFallsBack`.

## Findings

| source | as written | input that shows it | evidently intended | confidence | as-written member | corrected member |
|---|---|---|---|---|---|---|
| frontend/src/components/forms/RequestForm/CedulaForm.jsx:164-166 | `date < new Date("1900-01-01")`, repeated in the clearance form's calendar, compares the calendar's local-midnight date with UTC midnight, because a date-only ISO string is parsed as UTC | time zone UTC+8 (the Philippines): 1900-01-01 local midnight is 8 hours before 1900-01-01T00:00Z, so that day is disabled | every day from 1900-01-01 to today can be picked | medium, not executed | Calendar.AsWrittenDisablesFirstDayEastOfUtc | Calendar.SelectableRange |
| frontend/src/components/dashboard/dashboard.jsx:51 | `componentMap[tab] \|\| Overview` also finds names inherited from `Object.prototype`, which are truthy | `tab = "constructor"` yields the `Object` function, which React renders instead of a page | any tab that is not one of the map's own keys shows Overview | medium, not executed | Dashboard.ConstructorTabRendersNoPage | Dashboard.PageForFallsBack |
