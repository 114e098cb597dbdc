/** The secretary's residents page: search by name or address, avatar
    initials, and the grid/list toggle. */
module Residents {
  import opened Text

  datatype Resident = Resident(id: int, name: string, address: string, contactNumber: string)

  /** A resident is kept when the lowercased name or the lowercased address
      contains the lowercased search term. */
  predicate Matches(r: Resident, term: string) {
    Includes(Lower(r.name), Lower(term)) || Includes(Lower(r.address), Lower(term))
  }

  /** `residents.filter(...)`. */
  function Filter(residents: seq<Resident>, term: string): (r: seq<Resident>)
    ensures |r| <= |residents|
    ensures forall i :: 0 <= i < |r| ==> r[i] in residents && Matches(r[i], term)
    decreases |residents|
  {
    if |residents| == 0 then []
    else if Matches(residents[0], term) then [residents[0]] + Filter(residents[1..], term)
    else Filter(residents[1..], term)
  }

  /** `a` is `b` with some elements left out and the rest in their order. */
  predicate IsSubsequence<T(==)>(a: seq<T>, b: seq<T>)
    decreases |b|
  {
    if |a| == 0 then true
    else if |b| == 0 then false
    else if a[0] == b[0] then IsSubsequence(a[1..], b[1..])
    else IsSubsequence(a, b[1..])
  }

  /** The filtered list keeps residents in their original order. */
  lemma {:induction false} FilterIsSubsequence(residents: seq<Resident>, term: string)
    ensures IsSubsequence(Filter(residents, term), residents)
    decreases |residents|
  {
    if |residents| > 0 {
      FilterIsSubsequence(residents[1..], term);
      if !Matches(residents[0], term) {
        SubsequenceSkip(Filter(residents[1..], term), residents[0], residents[1..]);
      }
    }
  }

  /** Putting an element in front of the larger sequence keeps a subsequence one. */
  lemma {:induction false} SubsequenceSkip<T>(a: seq<T>, x: T, b: seq<T>)
    requires IsSubsequence(a, b)
    ensures IsSubsequence(a, [x] + b)
    decreases |b|, 1
  {
    var xb := [x] + b;
    assert xb[1..] == b;
    if |a| > 0 && a[0] == x {
      SubsequenceDrop(a, b);
    }
  }

  /** Dropping the head of a subsequence keeps it a subsequence. */
  lemma {:induction false} SubsequenceDrop<T>(a: seq<T>, b: seq<T>)
    requires |a| > 0 && IsSubsequence(a, b)
    ensures IsSubsequence(a[1..], b)
    decreases |b|, 0
  {
    assert |b| > 0;
    assert [b[0]] + b[1..] == b;
    if a[0] == b[0] {
      if |a[1..]| > 0 {
        SubsequenceSkip(a[1..], b[0], b[1..]);
      }
    } else {
      SubsequenceDrop(a, b[1..]);
      SubsequenceSkip(a[1..], b[0], b[1..]);
    }
  }

  /** A resident is in the filtered list exactly when it is in the list and matches. */
  lemma {:induction false} FilterMembership(residents: seq<Resident>, term: string, r: Resident)
    ensures r in Filter(residents, term) <==> r in residents && Matches(r, term)
    decreases |residents|
  {
    if |residents| > 0 {
      FilterMembership(residents[1..], term, r);
      assert residents == [residents[0]] + residents[1..];
    }
  }

  /** The empty search term keeps everyone. */
  lemma {:induction false} EmptyTermKeepsAll(residents: seq<Resident>)
    ensures Filter(residents, "") == residents
    decreases |residents|
  {
    if |residents| > 0 {
      assert Lower("") == "";
      IncludesEmpty(Lower(residents[0].name));
      assert Matches(residents[0], "");
      EmptyTermKeepsAll(residents[1..]);
      assert [residents[0]] + residents[1..] == residents;
    }
  }

  /** Terms that differ only in letter case select the same residents. */
  lemma {:induction false} FilterIgnoresCase(residents: seq<Resident>, t1: string, t2: string)
    requires EqualIgnoringCase(t1, t2)
    ensures Filter(residents, t1) == Filter(residents, t2)
    decreases |residents|
  {
    EqualIgnoringCaseLower(t1, t2);
    if |residents| > 0 {
      FilterIgnoresCase(residents[1..], t1, t2);
    }
  }

  /** Refining the search narrows the result: when the lowercased old term
      occurs in the lowercased new one, the new result is a subsequence of
      the old one. */
  lemma {:induction false} RefinedTermNarrows(residents: seq<Resident>, t1: string, t2: string)
    requires Includes(Lower(t2), Lower(t1))
    ensures IsSubsequence(Filter(residents, t2), Filter(residents, t1))
    decreases |residents|
  {
    if |residents| > 0 {
      var r := residents[0];
      var rest := residents[1..];
      RefinedTermNarrows(rest, t1, t2);
      if Includes(Lower(r.name), Lower(t2)) {
        IncludesTransitive(Lower(r.name), Lower(t2), Lower(t1));
      }
      if Includes(Lower(r.address), Lower(t2)) {
        IncludesTransitive(Lower(r.address), Lower(t2), Lower(t1));
      }
      if Matches(r, t2) {
        assert Filter(residents, t2) == [r] + Filter(rest, t2);
        assert Filter(residents, t1) == [r] + Filter(rest, t1);
        assert ([r] + Filter(rest, t2))[1..] == Filter(rest, t2);
        assert ([r] + Filter(rest, t1))[1..] == Filter(rest, t1);
      } else if Matches(r, t1) {
        SubsequenceSkip(Filter(rest, t2), r, Filter(rest, t1));
      }
    }
  }

  /** `n[0]` joined: the first character of a part, or nothing for an empty
      part (`undefined` joins as ""). */
  function Head(part: string): string {
    if |part| == 0 then "" else [part[0]]
  }

  function FirstChars(parts: seq<string>): (r: string)
    ensures |r| <= |parts|
    ensures forall c :: c in r ==> exists k :: 0 <= k < |parts| && |parts[k]| > 0 && parts[k][0] == c
    decreases |parts|
  {
    if |parts| == 0 then "" else Head(parts[0]) + FirstChars(parts[1..])
  }

  /** The avatar fallback: `name.split(" ").map((n) => n[0]).join("")`. */
  function Initials(name: string): (r: string)
    ensures |r| <= |Split(name, ' ')|
    ensures ' ' !in r
  {
    FirstChars(Split(name, ' '))
  }

  /** The characters that start a word, scanning left to right: a non-space
      at the start of the name or right after a space. */
  function WordStarts(s: string, afterSpace: bool): string
    decreases |s|
  {
    if |s| == 0 then ""
    else (if s[0] != ' ' && afterSpace then [s[0]] else "") + WordStarts(s[1..], s[0] == ' ')
  }

  /** The initials are exactly the word-starting characters of the name. */
  lemma {:induction false} InitialsAreWordStarts(name: string)
    ensures Initials(name) == WordStarts(name, true)
  {
    WordStartsSplit(name);
  }

  lemma {:induction false} WordStartsSplit(s: string)
    ensures WordStarts(s, true) == FirstChars(Split(s, ' '))
    ensures WordStarts(s, false) == FirstChars(Split(s, ' ')[1..])
    decreases |s|
  {
    if |s| > 0 {
      var rest := Split(s[1..], ' ');
      WordStartsSplit(s[1..]);
      if s[0] == ' ' {
        var parts := [""] + rest;
        assert parts[1..] == rest;
        assert FirstChars(parts) == Head("") + FirstChars(rest);
      } else {
        var parts := [[s[0]] + rest[0]] + rest[1..];
        assert parts[1..] == rest[1..];
        assert FirstChars(parts) == [s[0]] + FirstChars(rest[1..]);
      }
    }
  }

  /** Initials never contain a space and are never longer than the name. */
  lemma {:induction false} WordStartsShape(s: string, afterSpace: bool)
    ensures ' ' !in WordStarts(s, afterSpace)
    ensures |WordStarts(s, afterSpace)| <= |s|
    decreases |s|
  {
    if |s| > 0 {
      WordStartsShape(s[1..], s[0] == ' ');
    }
  }

  datatype ViewMode = Grid | List

  const InitialViewMode: ViewMode := Grid

  /** `toggleViewMode`: grid becomes list and list becomes grid. */
  function Toggle(m: ViewMode): (r: ViewMode)
    ensures r != m
  {
    if m == Grid then List else Grid
  }

  /** The page opens in grid mode, and toggling twice returns to where it was. */
  lemma ToggleTwice(m: ViewMode)
    ensures Toggle(Toggle(m)) == m
    ensures Toggle(InitialViewMode) == List
  {
  }

  /** The residents on screen: cards in grid mode, table rows in list mode. */
  datatype Listing = Cards(shown: seq<Resident>) | Table(shown: seq<Resident>)

  function Render(m: ViewMode, residents: seq<Resident>, term: string): (l: Listing)
    ensures l.Cards? <==> m == Grid
    ensures l.shown == Filter(residents, term)
  {
    if m == Grid then Cards(Filter(residents, term)) else Table(Filter(residents, term))
  }

  /** Both views show the same filtered residents, so toggling never changes who is listed. */
  lemma ToggleKeepsResidents(m: ViewMode, residents: seq<Resident>, term: string)
    ensures Render(Toggle(m), residents, term).shown == Render(m, residents, term).shown
  {
  }
}
