/** Checking a bibliographic patch (internal/service/book_metadata.go) before it is stored. */
module BookMetadata {
  import opened Tables
  import Text
  import Isbn

  datatype Field =
    | Title | Subtitle | Isbn13 | Isbn10 | Publisher | Place
    | CallNumber | Edition | Language | Faculty | Department | Description

  const FIELDS: seq<Field> :=
    [Title, Subtitle, Isbn13, Isbn10, Publisher, Place, CallNumber, Edition, Language, Faculty, Department, Description]

  /** What a request supplies; a field that is absent is to be left alone. */
  datatype Patch = Patch(text: map<Field, string>, year: Option<int>,
                         authors: Option<seq<string>>, subjects: Option<seq<string>>)

  function MaxLength(f: Field): nat {
    match f
    case Title | Subtitle | Publisher | Place => 500
    case Isbn13 | Isbn10 => 40
    case CallNumber | Edition | Language | Faculty | Department => 200
    case Description => 20000
  }

  predicate Required(f: Field) {
    f == Title || f == CallNumber
  }

  predicate IsControl(c: char) {
    c < ' ' || '\U{007F}' <= c <= '\U{009F}'
  }

  predicate ValidText(s: string, max: nat, multiline: bool) {
    |s| <= max && forall c :: c in s && IsControl(c) ==> multiline && c in "\n\r\t"
  }

  function UpperChar(c: char): char {
    if 'a' <= c <= 'z' then (c as int - 32) as char else c
  }

  /** Upper case, without the spaces and hyphens people type. */
  function Compact(s: string): (r: string)
    ensures |r| <= |s|
  {
    if s == [] then []
    else
      var rest := Compact(s[1..]);
      if s[0] == '-' || s[0] == ' ' then rest else [UpperChar(s[0])] + rest
  }

  function CleanIsbn(s: string, length: int): Option<string> {
    var v := Compact(Text.Trim(s));
    if v == "" || Isbn.Accepted(v, length) then Some(v) else None
  }

  /** One text field, trimmed. `classMark` is the call-number pattern applied in upper case. */
  function CleanField(f: Field, s: string, classMark: string -> bool): Option<string> {
    var v := Text.Trim(s);
    if !ValidText(v, MaxLength(f), f == Description) || (Required(f) && v == "") then None
    else match f
      case CallNumber => if classMark(v) then Some(v) else None
      case Isbn13 => CleanIsbn(v, 13)
      case Isbn10 => CleanIsbn(v, 10)
      case _ => Some(v)
  }

  predicate PlausibleYear(year: int, thisYear: int) {
    1000 <= year <= thisYear + 1 && year <= 2100
  }

  /** A list of names as it may be stored: trimmed, none blank, none twice. */
  predicate Canonical(names: seq<string>) {
    && (forall i :: 0 <= i < |names| ==> names[i] != "" && Text.Trim(names[i]) == names[i])
    && Distinct(names)
  }

  function TrimAll(names: seq<string>): (r: seq<string>)
    ensures |r| == |names| && forall i :: 0 <= i < |names| ==> r[i] == Text.Trim(names[i])
  {
    seq(|names|, i requires 0 <= i < |names| => Text.Trim(names[i]))
  }

  function CleanNames(names: seq<string>): Option<seq<string>> {
    var trimmed := TrimAll(names);
    if |names| <= 100 && Canonical(trimmed) && forall i :: 0 <= i < |trimmed| ==> ValidText(trimmed[i], 200, false)
    then Some(trimmed) else None
  }

  // Sorting the subjects

  predicate AtMost(a: string, b: string) {
    a == [] || (b != [] && (a[0] < b[0] || (a[0] == b[0] && AtMost(a[1..], b[1..]))))
  }

  predicate Sorted(names: seq<string>) {
    forall i :: 0 < i < |names| ==> AtMost(names[i - 1], names[i])
  }

  function Insert(name: string, sorted: seq<string>): seq<string> {
    if sorted == [] || AtMost(name, sorted[0]) then [name] + sorted else [sorted[0]] + Insert(name, sorted[1..])
  }

  function Sort(names: seq<string>): seq<string> {
    if names == [] then [] else Insert(names[0], Sort(names[1..]))
  }

  lemma {:induction false} AtMostTotal(a: string, b: string)
    ensures AtMost(a, b) || AtMost(b, a)
  {
    if a != [] && b != [] {
      AtMostTotal(a[1..], b[1..]);
    }
  }

  /** The words differ, and at the first place where they do `a` has the lesser character. */
  predicate LessWhereTheyDiffer(a: string, b: string) {
    exists i :: 0 <= i < |a| && i < |b| && a[i] < b[i] && a[..i] == b[..i]
  }

  lemma DifferInTail(a: string, b: string)
    requires a != [] && b != [] && a[0] == b[0]
    ensures LessWhereTheyDiffer(a, b) <==> LessWhereTheyDiffer(a[1..], b[1..])
  {
    if i :| 0 <= i < |a[1..]| && i < |b[1..]| && a[1..][i] < b[1..][i] && a[1..][..i] == b[1..][..i] {
      assert a[..i + 1] == [a[0]] + a[1..][..i] && b[..i + 1] == [b[0]] + b[1..][..i];
      assert a[i + 1] < b[i + 1];
    }
    if i :| 0 <= i < |a| && i < |b| && a[i] < b[i] && a[..i] == b[..i] {
      assert i > 0;
      assert a[1..][..i - 1] == a[..i][1..] && b[1..][..i - 1] == b[..i][1..];
      assert a[1..][i - 1] < b[1..][i - 1];
    }
  }

  /** The order is the dictionary's: a word comes before its continuations, and otherwise the first
    place where two words differ decides. */
  lemma {:induction false} AtMostIff(a: string, b: string)
    ensures AtMost(a, b) <==> a <= b || LessWhereTheyDiffer(a, b)
  {
    if a != [] && b != [] && a[0] == b[0] {
      AtMostIff(a[1..], b[1..]);
      DifferInTail(a, b);
      assert a == [a[0]] + a[1..] && b == [b[0]] + b[1..];
    } else if a != [] && b != [] && a[0] < b[0] {
      assert a[..0] == b[..0];
    }
  }

  lemma {:induction false} InsertKeepsAll(name: string, names: seq<string>)
    ensures multiset(Insert(name, names)) == multiset(names) + multiset{name}
  {
    if names != [] && !AtMost(name, names[0]) {
      InsertKeepsAll(name, names[1..]);
      assert names == [names[0]] + names[1..];
    }
  }

  lemma {:induction false} InsertSorts(name: string, names: seq<string>)
    requires Sorted(names)
    ensures Sorted(Insert(name, names))
    ensures Insert(name, names)[0] == name || (names != [] && Insert(name, names)[0] == names[0])
  {
    if names != [] && !AtMost(name, names[0]) {
      AtMostTotal(name, names[0]);
      InsertSorts(name, names[1..]);
      PrependSorted(names[0], Insert(name, names[1..]));
    }
  }

  lemma PrependSorted(first: string, rest: seq<string>)
    requires Sorted(rest) && (rest != [] ==> AtMost(first, rest[0]))
    ensures Sorted([first] + rest)
  {
    var all := [first] + rest;
    forall i | 0 < i < |all| ensures AtMost(all[i - 1], all[i]) {
      assert i > 1 ==> AtMost(rest[i - 2], rest[i - 1]);
    }
  }

  lemma {:induction false} SortSorts(names: seq<string>)
    ensures Sorted(Sort(names)) && multiset(Sort(names)) == multiset(names)
  {
    if names != [] {
      SortSorts(names[1..]);
      InsertSorts(names[0], Sort(names[1..]));
      InsertKeepsAll(names[0], Sort(names[1..]));
      assert names == [names[0]] + names[1..];
    }
  }

  lemma {:induction false} SortedStays(names: seq<string>)
    requires Sorted(names)
    ensures Sort(names) == names
  {
    if names != [] {
      SortedStays(names[1..]);
    }
  }

  // Validation

  predicate Empty(p: Patch) {
    p.text == map[] && p.year.None? && p.authors.None? && p.subjects.None?
  }

  type Cleaner = (Field, string) -> Option<string>

  function CleanerFor(classMark: string -> bool): Cleaner {
    (f: Field, s: string) => CleanField(f, s, classMark)
  }

  predicate AllClean(text: map<Field, string>, clean: Cleaner) {
    forall f :: f in text ==> clean(f, text[f]).Some?
  }

  function CleanAll(text: map<Field, string>, clean: Cleaner): map<Field, string>
    requires AllClean(text, clean)
  {
    map f | f in text :: clean(f, text[f]).value
  }

  predicate FieldsClean(p: Patch, classMark: string -> bool) {
    AllClean(p.text, CleanerFor(classMark))
  }

  predicate NamesClean(names: Option<seq<string>>) {
    names.Some? ==> CleanNames(names.value).Some?
  }

  predicate Acceptable(p: Patch, thisYear: int, classMark: string -> bool) {
    && !Empty(p)
    && FieldsClean(p, classMark)
    && (p.year.Some? ==> PlausibleYear(p.year.value, thisYear))
    && NamesClean(p.authors) && NamesClean(p.subjects)
  }

  function CleanText(p: Patch, classMark: string -> bool): map<Field, string>
    requires FieldsClean(p, classMark)
  {
    CleanAll(p.text, CleanerFor(classMark))
  }

  function CleanList(names: Option<seq<string>>, sort: bool): Option<seq<string>>
    requires NamesClean(names)
  {
    if names.None? then None
    else if sort then Some(Sort(CleanNames(names.value).value))
    else CleanNames(names.value)
  }

  /** The stored form of an acceptable patch; every other patch is ErrInvalidBookMetadata. */
  function Validated(p: Patch, thisYear: int, classMark: string -> bool): Option<Patch> {
    if !Acceptable(p, thisYear, classMark) then None
    else Some(Patch(CleanText(p, classMark), p.year, CleanList(p.authors, false), CleanList(p.subjects, true)))
  }

  // What is accepted, written out

  /** No control character, but for line breaks and tabs where several lines are allowed. */
  predicate Printable(s: string, multiline: bool) {
    forall c :: c in s && (c < ' ' || '\U{007F}' <= c <= '\U{009F}') ==>
      multiline && (c == '\n' || c == '\r' || c == '\t')
  }

  /** A list of names is taken as a whole or not at all: at most a hundred of them, each with
    something left after trimming, printable and no longer than 200, and no two alike. */
  ghost predicate NamesTaken(names: seq<string>, r: Option<seq<string>>) {
    && (r.Some? <==>
          && |names| <= 100
          && (forall i :: 0 <= i < |names| ==>
                var v := Text.Trim(names[i]); v != "" && |v| <= 200 && Printable(v, false))
          && forall i, j :: 0 <= i < j < |names| ==> Text.Trim(names[i]) != Text.Trim(names[j]))
    && (r.Some? ==>
          |r.value| == |names| && forall i :: 0 <= i < |names| ==> r.value[i] == Text.Trim(names[i]))
  }

  lemma NamesTakenIff(names: seq<string>)
    ensures NamesTaken(names, CleanNames(names))
  {
    var trimmed := TrimAll(names);
    forall i | 0 <= i < |names| ensures Text.Trim(trimmed[i]) == trimmed[i] {
      Text.TrimTwice(names[i]);
    }
    assert forall i :: 0 <= i < |names| ==> (ValidText(trimmed[i], 200, false) <==> Fits(trimmed[i], 200, false));
  }

  /** A number as people type it loses its spaces and hyphens, and its letters are raised: one
    character at a time. */
  lemma {:induction false} CompactSplits(a: string, c: char, b: string)
    ensures Compact("") == ""
    ensures Compact(a + [c] + b)
      == Compact(a)
         + (if c == ' ' || c == '-' then "" else if 'a' <= c <= 'z' then [(c as int - 32) as char] else [c])
         + Compact(b)
    decreases |a|
  {
    var s := a + [c] + b;
    if a == [] {
      assert s[0] == c && s[1..] == b;
    } else {
      CompactSplits(a[1..], c, b);
      assert s[0] == a[0] && s[1..] == a[1..] + [c] + b;
    }
  }

  /** What is supplied for an ISBN is stored compact, and may be nothing. */
  ghost predicate IsbnTaken(v: string, length: int, r: Option<string>) {
    && (r.Some? <==> Compact(v) == "" || Isbn.Accepted(Compact(v), length))
    && (r.Some? ==> r.value == Compact(v))
  }

  predicate Fits(v: string, max: nat, multiline: bool) {
    |v| <= max && Printable(v, multiline)
  }

  /** Field by field: how long, whether it may be blank, and what is stored. */
  ghost predicate FieldTaken(f: Field, s: string, classMark: string -> bool, r: Option<string>) {
    var v := Text.Trim(s);
    && (r.Some? && f != Isbn13 && f != Isbn10 ==> r.value == v)
    && match f
       case Title => r.Some? <==> v != "" && Fits(v, 500, false)
       case CallNumber => r.Some? <==> v != "" && Fits(v, 200, false) && classMark(v)
       case Isbn13 => if Fits(v, 40, false) then IsbnTaken(v, 13, r) else r.None?
       case Isbn10 => if Fits(v, 40, false) then IsbnTaken(v, 10, r) else r.None?
       case Subtitle | Publisher | Place => r.Some? <==> Fits(v, 500, false)
       case Edition | Language | Faculty | Department => r.Some? <==> Fits(v, 200, false)
       case Description => r.Some? <==> Fits(v, 20000, true)
  }

  lemma FieldTakenIff(f: Field, s: string, classMark: string -> bool)
    ensures FieldTaken(f, s, classMark, CleanField(f, s, classMark))
  {
    var v := Text.Trim(s);
    Text.TrimTwice(s);
    assert ValidText(v, MaxLength(f), f == Description) <==> Fits(v, MaxLength(f), f == Description);
  }

  /** A patch is taken as a whole or not at all: it supplies something, every field and list it
    supplies is fit, and the year, if given, is between 1000 and next year, and not past 2100. What is
    stored has the same fields, each as above, the same year, the authors in their order and the
    subjects in alphabetical order. */
  lemma PatchTakenIff(p: Patch, thisYear: int, classMark: string -> bool)
    ensures var r := Validated(p, thisYear, classMark);
      && (r.Some? <==>
            && (p.text != map[] || p.year.Some? || p.authors.Some? || p.subjects.Some?)
            && (forall f :: f in p.text ==> CleanField(f, p.text[f], classMark).Some?)
            && (p.year.Some? ==> 1000 <= p.year.value <= thisYear + 1 && p.year.value <= 2100)
            && (p.authors.Some? ==> CleanNames(p.authors.value).Some?)
            && (p.subjects.Some? ==> CleanNames(p.subjects.value).Some?))
      && (r.Some? ==>
            && r.value.text.Keys == p.text.Keys
            && (forall f :: f in p.text ==> CleanField(f, p.text[f], classMark) == Some(r.value.text[f]))
            && r.value.year == p.year
            && (if p.authors.None? then r.value.authors.None? else r.value.authors == CleanNames(p.authors.value))
            && (if p.subjects.None? then r.value.subjects.None?
                else r.value.subjects.Some? && Sorted(r.value.subjects.value)
                     && multiset(r.value.subjects.value) == multiset(CleanNames(p.subjects.value).value)))
  {
    var clean := CleanerFor(classMark);
    assert AllClean(p.text, clean) <==> forall f :: f in p.text ==> CleanField(f, p.text[f], classMark).Some?;
    if p.subjects.Some? && CleanNames(p.subjects.value).Some? {
      SortSorts(CleanNames(p.subjects.value).value);
    }
  }

  lemma CanonicalNext(names: seq<string>, v: string)
    requires Canonical(names) && v != "" && Text.Trim(v) == v && v !in names
    ensures Canonical(names + [v])
  {
  }

  lemma RefusedName(names: seq<string>, trimmed: seq<string>, i: nat)
    requires trimmed == TrimAll(names) && i < |names|
    requires trimmed[i] == "" || !ValidText(trimmed[i], 200, false) || trimmed[i] in trimmed[..i]
    ensures CleanNames(names).None?
  {
    if trimmed[i] in trimmed[..i] {
      var j :| 0 <= j < i && trimmed[..i][j] == trimmed[i];
      assert trimmed[j] == trimmed[i];
    }
  }

  /** The list loop: each name trimmed, refused if blank, unprintable or seen already. */
  method ValidateNames(names: seq<string>) returns (r: Option<seq<string>>)
    ensures r == CleanNames(names)
  {
    ghost var trimmed := TrimAll(names);
    if |names| > 100 {
      return None;
    }
    var values: seq<string> := [];
    var seen: set<string> := {};
    for i := 0 to |names|
      invariant values == trimmed[..i] && seen == set v | v in values
      invariant Canonical(values) && forall j :: 0 <= j < i ==> ValidText(values[j], 200, false)
    {
      var v := Text.Trim(names[i]);
      assert v == trimmed[i];
      if v == "" || !ValidText(v, 200, false) || v in seen {
        RefusedName(names, trimmed, i);
        return None;
      }
      Text.TrimTwice(names[i]);
      CanonicalNext(values, v);
      seen := seen + {v};
      values := values + [v];
    }
    assert values == trimmed;
    return Some(values);
  }

  /** The loop over the text fields. */
  method ValidateFields(supplied: map<Field, string>, clean: Cleaner) returns (ok: bool, text: map<Field, string>)
    ensures ok <==> AllClean(supplied, clean)
    ensures ok ==> text == CleanAll(supplied, clean)
  {
    text := map[];
    for i := 0 to |FIELDS|
      invariant forall f :: f in text <==> f in supplied && f in FIELDS[..i]
      invariant forall f :: f in text ==> clean(f, supplied[f]) == Some(text[f])
    {
      var f := FIELDS[i];
      if f in supplied {
        var cleaned := clean(f, supplied[f]);
        if cleaned.None? {
          return false, text;
        }
        text := text[f := cleaned.value];
      }
    }
    EveryFieldListed();
    assert FIELDS[..|FIELDS|] == FIELDS;
    return true, text;
  }

  method ValidateBookMetadata(p: Patch, thisYear: int, classMark: string -> bool) returns (r: Option<Patch>)
    ensures r == Validated(p, thisYear, classMark)
  {
    var ok, text := ValidateFields(p.text, CleanerFor(classMark));
    if !ok {
      return None;
    }
    if p.year.Some? && !PlausibleYear(p.year.value, thisYear) {
      return None;
    }
    var authors, subjects := p.authors, p.subjects;
    if authors.Some? {
      authors := ValidateNames(authors.value);
      if authors.None? {
        return None;
      }
    }
    if subjects.Some? {
      subjects := ValidateNames(subjects.value);
      if subjects.None? {
        return None;
      }
      subjects := Some(Sort(subjects.value));
    }
    if Empty(p) {
      return None;
    }
    return Some(Patch(text, p.year, authors, subjects));
  }

  lemma EveryFieldListed()
    ensures forall f: Field :: f in FIELDS
  {
    forall f: Field ensures f in FIELDS {
      match f
      case Title => assert FIELDS[0] == f;
      case Subtitle => assert FIELDS[1] == f;
      case Isbn13 => assert FIELDS[2] == f;
      case Isbn10 => assert FIELDS[3] == f;
      case Publisher => assert FIELDS[4] == f;
      case Place => assert FIELDS[5] == f;
      case CallNumber => assert FIELDS[6] == f;
      case Edition => assert FIELDS[7] == f;
      case Language => assert FIELDS[8] == f;
      case Faculty => assert FIELDS[9] == f;
      case Department => assert FIELDS[10] == f;
      case Description => assert FIELDS[11] == f;
    }
  }

  // Validation settles

  /** An accepted ISBN is digits and X only, so nothing is left to trim, strip or raise. */
  lemma AcceptedIsCompact(v: string, length: int)
    requires length == 10 || length == 13
    requires Isbn.Accepted(v, length)
    ensures Text.Trim(v) == v && Compact(v) == v && ValidText(v, 40, false)
  {
    assert IsbnCharacters(v) && |v| == length;
    CompactStays(v);
    assert !Text.IsSpace(v[0]) && !Text.IsSpace(v[|v| - 1]);
  }

  predicate IsbnCharacters(v: string) {
    forall i :: 0 <= i < |v| ==> Isbn.IsDigit(v[i]) || v[i] == 'X'
  }

  lemma {:induction false} CompactStays(v: string)
    requires IsbnCharacters(v)
    ensures Compact(v) == v
  {
    if v != [] {
      CompactStays(v[1..]);
      assert v == [v[0]] + v[1..];
    }
  }

  lemma CleanTwice(f: Field, s: string, classMark: string -> bool)
    requires CleanField(f, s, classMark).Some?
    ensures CleanField(f, CleanField(f, s, classMark).value, classMark) == CleanField(f, s, classMark)
  {
    Text.TrimTwice(s);
    var v := CleanField(f, s, classMark).value;
    if (f == Isbn13 || f == Isbn10) && v != "" {
      AcceptedIsCompact(v, if f == Isbn13 then 13 else 10);
    }
  }

  lemma NamesTwice(names: seq<string>)
    requires CleanNames(names).Some?
    ensures CleanNames(CleanNames(names).value) == CleanNames(names)
  {
    var v := CleanNames(names).value;
    assert TrimAll(v) == v;
  }

  /** Sorting keeps a clean list clean. */
  lemma SortedNamesClean(names: seq<string>)
    requires CleanNames(names) == Some(names)
    ensures CleanNames(Sort(names)) == Some(Sort(names))
  {
    var sorted := Sort(names);
    SortSorts(names);
    SamePermuted(names, sorted);
    forall i | 0 <= i < |sorted|
      ensures sorted[i] != "" && Text.Trim(sorted[i]) == sorted[i] && ValidText(sorted[i], 200, false)
    {
      assert sorted[i] in names;
      var j :| 0 <= j < |names| && names[j] == sorted[i];
      assert TrimAll(names)[j] == names[j];
    }
    assert Distinct(names);
    assert TrimAll(sorted) == sorted;
  }

  lemma {:induction false} DistinctOnce(names: seq<string>)
    ensures Distinct(names) <==> forall v :: v in names ==> multiset(names)[v] == 1
  {
    if names != [] {
      var front, last := names[..|names| - 1], names[|names| - 1];
      DistinctOnce(front);
      assert names == front + [last];
      assert last in front <==> multiset(front)[last] >= 1;
      if Distinct(names) {
        assert last !in front;
      } else if v :| v in front && multiset(front)[v] != 1 {
        assert multiset(names)[v] != 1;
      } else {
        assert last in front;
        assert multiset(names)[last] >= 2;
      }
    }
  }

  lemma SamePermuted(names: seq<string>, sorted: seq<string>)
    requires multiset(names) == multiset(sorted)
    ensures |names| == |sorted| && (Distinct(names) <==> Distinct(sorted))
    ensures forall v :: v in names <==> v in sorted
  {
    DistinctOnce(names);
    DistinctOnce(sorted);
    assert |multiset(names)| == |multiset(sorted)|;
    forall v ensures v in names <==> v in sorted {
      assert v in names <==> v in multiset(names);
      assert v in sorted <==> v in multiset(sorted);
    }
  }

  lemma ListSettles(names: Option<seq<string>>, sort: bool)
    requires NamesClean(names)
    ensures var kept := CleanList(names, sort); NamesClean(kept) && CleanList(kept, sort) == kept
  {
    if names.Some? {
      var trimmed := CleanNames(names.value).value;
      NamesTwice(names.value);
      if sort {
        SortedNamesClean(trimmed);
        SortSorts(trimmed);
        SortedStays(Sort(trimmed));
      }
    }
  }

  /** Cleaning that settles field by field settles as a whole. */
  lemma CleanedStaysClean(text: map<Field, string>, clean: Cleaner)
    requires AllClean(text, clean)
    requires forall f :: f in text ==> clean(f, clean(f, text[f]).value) == clean(f, text[f])
    ensures AllClean(CleanAll(text, clean), clean) && CleanAll(CleanAll(text, clean), clean) == CleanAll(text, clean)
    ensures CleanAll(text, clean) == map[] ==> text == map[]
  {
    assert CleanAll(text, clean).Keys == text.Keys;
  }

  lemma FieldsSettle(p: Patch, classMark: string -> bool)
    requires FieldsClean(p, classMark)
    ensures var clean, text := CleanerFor(classMark), CleanText(p, classMark);
      AllClean(text, clean) && CleanAll(text, clean) == text && (text == map[] ==> p.text == map[])
  {
    var clean := CleanerFor(classMark);
    forall f | f in p.text ensures clean(f, clean(f, p.text[f]).value) == clean(f, p.text[f]) {
      CleanTwice(f, p.text[f], classMark);
    }
    CleanedStaysClean(p.text, clean);
  }

  /** Validation is idempotent, now or in a later year. */
  lemma ValidationSettles(p: Patch, thisYear: int, later: int, classMark: string -> bool)
    requires Validated(p, thisYear, classMark).Some? && thisYear <= later
    ensures var q := Validated(p, thisYear, classMark).value; Validated(q, later, classMark) == Some(q)
  {
    FieldsSettle(p, classMark);
    ListSettles(p.authors, false);
    ListSettles(p.subjects, true);
  }
}
