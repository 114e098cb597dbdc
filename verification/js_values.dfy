/** The JavaScript values the forms handle, the `x || ""` defaulting idiom they
    use everywhere, and the user identity read from client-side storage. */
module JsValues {

  datatype Option<+T> = None | Some(value: T)

  /** A file picked in an `<input type="file">`: its name, its MIME type and
      what reading it as a data URL produced. */
  datatype File = File(name: string, mimeType: string, contents: ReadResult)

  /** The outcome of `FileReader.readAsDataURL`: `onload` with the data URL, or `onerror`. */
  datatype ReadResult = DataUrl(url: string) | ReadFailure

  /** One uploaded evidence item as sent to the server. `data` is `None` when
      the data URL has no comma, i.e. when `split(",")[1]` is `undefined`. */
  datatype Attachment = Attachment(filename: string, contentType: string, data: Option<string>)

  /** The subset of JavaScript values that reach a form field. Numbers are
      integers here; see the README for what that leaves out. */
  datatype JsValue =
    | Undefined
    | Null
    | Bool(b: bool)
    | Num(n: int)
    | Str(s: string)
    | FileList(files: seq<File>)
    | AttachmentList(items: seq<Attachment>)

  /** JavaScript truthiness: `undefined`, `null`, `false`, `0` and `""` are falsy;
      every object (a FileList or an array included, even when empty) is truthy. */
  predicate Truthy(v: JsValue) {
    match v
    case Undefined => false
    case Null => false
    case Bool(b) => b
    case Num(n) => n != 0
    case Str(s) => s != ""
    case FileList(_) => true
    case AttachmentList(_) => true
  }

  /** `v || ""`: the value itself when truthy, otherwise the empty string. */
  function OrEmpty(v: JsValue): (r: JsValue)
    ensures Truthy(v) ==> r == v
    ensures !Truthy(v) ==> r == Str("")
  {
    if Truthy(v) then v else Str("")
  }

  /** What a field defaulted with `|| ""` can hold: a truthy value or the empty string. */
  predicate Filled(v: JsValue) {
    Truthy(v) || v == Str("")
  }

  lemma OrEmptyFills(v: JsValue)
    ensures Filled(OrEmpty(v))
    ensures OrEmpty(OrEmpty(v)) == OrEmpty(v)
    ensures OrEmpty(v) == v <==> Filled(v)
  {
  }

  /** A field value of a record that may be missing: `record?.field`. */
  function Get(m: Option<map<string, JsValue>>, key: string): (r: JsValue)
    ensures m.None? ==> r == Undefined
    ensures m.Some? && key !in m.value ==> r == Undefined
    ensures m.Some? && key in m.value ==> r == m.value[key]
  {
    match m
    case None => Undefined
    case Some(record) => if key in record then record[key] else Undefined
  }

  /** The user record that `getUserFromLocalStorage` returns when one is stored;
      `Option<Identity>.None` stands for `null`. */
  datatype Identity = Identity(name: JsValue, email: JsValue, barangay: JsValue)

  /** The identity fields a form copies into its own fields. */
  datatype IdentityField = NameField | EmailField | BarangayField

  function IdentityValue(user: Option<Identity>, field: IdentityField): (r: JsValue)
    ensures user.None? ==> r == Undefined
  {
    match user
    case None => Undefined
    case Some(u) =>
      match field
      case NameField => u.name
      case EmailField => u.email
      case BarangayField => u.barangay
  }
}
