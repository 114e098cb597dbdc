/** The browser sniffing every form runs once on mount to decide between the
    native `<input type="date">` and the calendar popover. */
module Browser {
  import opened JsValues
  import opened Text

  /** What `navigator?.brave?.isBrave?.()` gave: no such API, a promise that
      resolved with a value, or a promise that rejected. */
  datatype BraveCheck = NoBraveApi | BraveResolved(answer: JsValue) | BraveRejected

  /** A missing API and a rejected promise both count as "not Brave". */
  predicate IsBrave(b: BraveCheck) {
    b.BraveResolved? && Truthy(b.answer)
  }

  /** `isChromeBrowser`: the lowercased user agent mentions "chrome" and
      neither "edg" nor "opr", and the Brave check says no. */
  predicate IsChromeBrowser(userAgent: string, brave: BraveCheck) {
    var ua := Lower(userAgent);
    Includes(ua, "chrome") && !Includes(ua, "edg") && !Includes(ua, "opr") && !IsBrave(brave)
  }

  /** The `isChrome` state: `false` until the asynchronous detection resolves. */
  datatype Probe = Pending | Detected(isChrome: bool)

  function Detect(userAgent: string, brave: BraveCheck): (p: Probe)
    ensures p.Detected?
  {
    Detected(IsChromeBrowser(userAgent, brave))
  }

  datatype DateInput = NativeDateInput | CalendarPopover

  /** The date field's rendering: native input exactly when detection said Chrome. */
  function DateInputFor(p: Probe): (d: DateInput)
    ensures d == NativeDateInput <==> p == Detected(true)
  {
    if p.Detected? && p.isChrome then NativeDateInput else CalendarPopover
  }

  /** The native date input is chosen exactly when the lowercased user agent
      has "chrome" as a substring, has neither "edg" nor "opr", and the Brave
      check did not resolve with a truthy answer. */
  lemma NativeDateInputIff(userAgent: string, brave: BraveCheck)
    ensures DateInputFor(Detect(userAgent, brave)) == NativeDateInput
      <==> (&& IsSubstring("chrome", Lower(userAgent))
            && !IsSubstring("edg", Lower(userAgent))
            && !IsSubstring("opr", Lower(userAgent))
            && !(brave.BraveResolved? && Truthy(brave.answer)))
  {
    var ua := Lower(userAgent);
    IncludesIsSubstring(ua, "chrome");
    IncludesIsSubstring(ua, "edg");
    IncludesIsSubstring(ua, "opr");
  }

  /** Before detection resolves the calendar popover is used. */
  lemma PendingUsesCalendar()
    ensures DateInputFor(Pending) == CalendarPopover
  {
  }

  /** A missing Brave API, a rejected Brave promise and a `false` answer are
      indistinguishable: detection never fails because of the Brave check. */
  lemma BraveFailureIsNotBrave(userAgent: string)
    ensures Detect(userAgent, NoBraveApi) == Detect(userAgent, BraveRejected)
    ensures Detect(userAgent, BraveRejected) == Detect(userAgent, BraveResolved(Bool(false)))
  {
  }

  /** Sniffing ignores letter case: agents that differ only in ASCII case
      get the same date input. */
  lemma DetectIgnoresCase(a: string, b: string, brave: BraveCheck)
    requires EqualIgnoringCase(a, b)
    ensures Detect(a, brave) == Detect(b, brave)
  {
    EqualIgnoringCaseLower(a, b);
  }

  /** An agent naming Edge anywhere never gets the native input, whatever the Brave check says. */
  lemma EdgeUsesCalendar(prefix: string, suffix: string, brave: BraveCheck)
    ensures DateInputFor(Detect(prefix + "Edg" + suffix, brave)) == CalendarPopover
  {
    var ua := prefix + "Edg" + suffix;
    var l := Lower(ua);
    assert l[|prefix|..|prefix| + 3] == "edg";
    assert OccursAt(l, "edg", |prefix|);
    IncludesIsSubstring(l, "edg");
  }
}
