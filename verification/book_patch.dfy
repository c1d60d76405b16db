/** Editing a bibliographic record (internal/repository/postgres/book_edit_repo.go): patches
  form an algebra, and the audit line names exactly what a reader would see change. */
module BookPatch {
  import opened Tables
  import opened BookMetadata
  import Text

  type Texts = m: map<Field, string> | forall f: Field :: f in m
    witness map f: Field :: ""

  /** A record as it is read back: an absent column reads as the empty string, authors in
    order of position, subjects as the set of headings linked. */
  datatype Record = Record(text: Texts, lcc: char, year: Option<int>, authors: seq<string>, subjects: set<string>)

  datatype Part = TextPart(field: Field) | YearPart | AuthorsPart | SubjectsPart

  datatype Value =
    | TextValue(s: string)
    | YearValue(year: Option<int>)
    | NamesValue(names: seq<string>)
    | SetValue(headings: set<string>)

  function ReadBack(r: Record, part: Part): Value {
    match part
    case TextPart(f) => TextValue(r.text[f])
    case YearPart => YearValue(r.year)
    case AuthorsPart => NamesValue(r.authors)
    case SubjectsPart => SetValue(r.subjects)
  }

  predicate Supplied(p: Patch, part: Part) {
    match part
    case TextPart(f) => f in p.text
    case YearPart => p.year.Some?
    case AuthorsPart => p.authors.Some?
    case SubjectsPart => p.subjects.Some?
  }

  /** Both lists as they are stored, which is how validation leaves them. */
  predicate StoredForm(p: Patch) {
    (p.authors.Some? ==> Canonical(p.authors.value)) && (p.subjects.Some? ==> Canonical(p.subjects.value))
  }

  // The edit as a function

  /** The names linked to a record: trimmed, blanks skipped, a repeat ignored. */
  function Linked(names: seq<string>): seq<string> {
    if names == [] then []
    else
      var rest, name := Linked(names[..|names| - 1]), Text.Trim(names[|names| - 1]);
      if name == "" || name in rest then rest else rest + [name]
  }

  function Names(names: seq<string>): set<string> {
    set v | v in names
  }

  predicate Changes(r: Record, p: Patch, part: Part) {
    match part
    case TextPart(f) => f in p.text && p.text[f] != r.text[f]
    case YearPart => p.year.Some? && p.year != r.year
    case AuthorsPart => p.authors.Some? && p.authors.value != r.authors
    case SubjectsPart => p.subjects.Some? && multiset(p.subjects.value) != multiset(r.subjects)
  }

  function TextParts(r: Record, p: Patch): set<Part> {
    set f: Field | f in p.text && p.text[f] != r.text[f] :: TextPart(f)
  }

  function When(b: bool, part: Part): set<Part> {
    if b then {part} else {}
  }

  /** The audit line's changed_fields. */
  function Changed(r: Record, p: Patch): (parts: set<Part>)
    ensures forall part: Part :: part in parts <==> Changes(r, p, part)
  {
    TextParts(r, p)
    + When(Changes(r, p, YearPart), YearPart)
    + When(Changes(r, p, AuthorsPart), AuthorsPart)
    + When(Changes(r, p, SubjectsPart), SubjectsPart)
  }

  function Over(base: Texts, top: map<Field, string>): Texts {
    base + top
  }

  /** `lead` is the class letter of a call number, trimmed and in upper case. */
  function Applied(r: Record, p: Patch, lead: string -> char): Record {
    Record(
      Over(r.text, p.text),
      if CallNumber in p.text then lead(p.text[CallNumber]) else r.lcc,
      if p.year.Some? then p.year else r.year,
      if Changes(r, p, AuthorsPart) then Linked(p.authors.value) else r.authors,
      if Changes(r, p, SubjectsPart) then Names(Linked(p.subjects.value)) else r.subjects)
  }

  datatype Answer = Stored(record: Record) | NotFound | InvalidCallNumber | DuplicateIsbn

  datatype AuditLine = MetadataUpdated(book: nat, changed: set<Part>)

  predicate IsbnHeld(books: seq<Record>, id: nat, isbn: string)
  {
    isbn != "" && exists other :: 0 <= other < |books| && other != id && books[other].text[Isbn13] == isbn
  }

  predicate BlankCallNumber(p: Patch) {
    CallNumber in p.text && Text.Trim(p.text[CallNumber]) == ""
  }

  /** What one edit answers, and with a record, what it leaves. */
  function Edit(books: seq<Record>, id: nat, p: Patch, lead: string -> char): Answer {
    if id >= |books| then NotFound
    else if Changed(books[id], p) == {} then Stored(books[id])
    else if BlankCallNumber(p) then InvalidCallNumber
    else if IsbnHeld(books, id, Over(books[id].text, p.text)[Isbn13]) then DuplicateIsbn
    else Stored(Applied(books[id], p, lead))
  }

  class Catalogue {
    var books: seq<Record>
    var audit: seq<AuditLine>

    /** The first loop of UpdateBook, over the text fields. */
    method ChangedTexts(before: Record, p: Patch) returns (changed: set<Part>)
      ensures changed == TextParts(before, p)
    {
      changed := {};
      for i := 0 to |FIELDS|
        invariant changed
          == set f: Field | f in FIELDS[..i] && f in p.text && p.text[f] != before.text[f] :: TextPart(f)
      {
        var f := FIELDS[i];
        if f in p.text && p.text[f] != before.text[f] {
          changed := changed + {TextPart(f)};
        }
      }
      EveryFieldListed();
      assert FIELDS[..|FIELDS|] == FIELDS;
    }

    /** The loop of linkAuthors and linkSubjects. */
    method Link(names: seq<string>) returns (linked: seq<string>)
      ensures linked == Linked(names)
    {
      linked := [];
      for i := 0 to |names|
        invariant linked == Linked(names[..i])
      {
        var name := Text.Trim(names[i]);
        assert names[..i + 1][..i] == names[..i];
        if name != "" && name !in linked {
          linked := linked + [name];
        }
      }
      assert names[..|names|] == names;
    }

    method ChangedParts(before: Record, p: Patch) returns (changed: set<Part>)
      ensures changed == Changed(before, p)
    {
      changed := ChangedTexts(before, p);
      if p.year.Some? && p.year != before.year {
        changed := changed + {YearPart};
      }
      if p.authors.Some? && p.authors.value != before.authors {
        changed := changed + {AuthorsPart};
      }
      if p.subjects.Some? && multiset(p.subjects.value) != multiset(before.subjects) {
        changed := changed + {SubjectsPart};
      }
    }

    /** The UPDATE of the row, then the two lists where they changed. */
    method Write(before: Record, p: Patch, lead: string -> char, changed: set<Part>) returns (after: Record)
      requires changed == Changed(before, p)
      ensures after == Applied(before, p, lead)
    {
      var lcc := if CallNumber in p.text then lead(p.text[CallNumber]) else before.lcc;
      var year := if p.year.Some? then p.year else before.year;
      after := before.(text := Over(before.text, p.text), lcc := lcc, year := year);
      if AuthorsPart in changed {
        var linked := Link(p.authors.value);
        after := after.(authors := linked);
      }
      if SubjectsPart in changed {
        var linked := Link(p.subjects.value);
        after := after.(subjects := Names(linked));
      }
    }

    method UpdateBook(id: nat, p: Patch, lead: string -> char) returns (answer: Answer)
      modifies this
      ensures answer == Edit(old(books), id, p, lead)
      ensures books == if answer.Stored? then old(books)[id := answer.record] else old(books)
      ensures audit == if answer.Stored? && Changed(old(books)[id], p) != {}
                       then old(audit) + [MetadataUpdated(id, Changed(old(books)[id], p))] else old(audit)
    {
      if id >= |books| {
        return NotFound;
      }
      var before := books[id];
      var changed := ChangedParts(before, p);
      if changed == {} {
        return Stored(before);
      }
      if BlankCallNumber(p) {
        return InvalidCallNumber;
      }
      if IsbnHeld(books, id, Over(before.text, p.text)[Isbn13]) {
        return DuplicateIsbn;
      }
      var after := Write(before, p, lead, changed);
      books := books[id := after];
      audit := audit + [MetadataUpdated(id, changed)];
      return Stored(after);
    }
  }

  // The algebra

  lemma {:induction false} CanonicalIsLinked(names: seq<string>)
    requires Canonical(names)
    ensures Linked(names) == names
  {
    if names != [] {
      var front, last := names[..|names| - 1], names[|names| - 1];
      CanonicalIsLinked(front);
      assert names == front + [last] && last !in front;
    }
  }

  lemma {:induction false} DistinctAsSet(names: seq<string>)
    requires Distinct(names)
    ensures multiset(names) == multiset(Names(names))
  {
    DistinctOnce(names);
    forall v ensures multiset(names)[v] == multiset(Names(names))[v] {
      assert v in names <==> v in multiset(names);
    }
  }

  lemma SameSetSameMultiset(a: set<string>, b: set<string>)
    ensures multiset(a) == multiset(b) <==> a == b
  {
    if multiset(a) == multiset(b) {
      forall v ensures v in a <==> v in b {
        assert v in a <==> v in multiset(a);
        assert v in b <==> v in multiset(b);
      }
    }
  }

  /** The record with every supplied field as the patch has it. */
  function Written(r: Record, p: Patch, lead: string -> char): Record {
    Record(
      Over(r.text, p.text),
      if CallNumber in p.text then lead(p.text[CallNumber]) else r.lcc,
      if p.year.Some? then p.year else r.year,
      if p.authors.Some? then p.authors.value else r.authors,
      if p.subjects.Some? then Names(p.subjects.value) else r.subjects)
  }

  /** A patch in stored form is stored as it was written. */
  lemma StoredAsWritten(r: Record, p: Patch, lead: string -> char)
    requires StoredForm(p)
    ensures Applied(r, p, lead) == Written(r, p, lead)
    ensures p.subjects.Some? ==> (Changes(r, p, SubjectsPart) <==> r.subjects != Names(p.subjects.value))
  {
    if p.authors.Some? {
      CanonicalIsLinked(p.authors.value);
    }
    if p.subjects.Some? {
      CanonicalIsLinked(p.subjects.value);
      DistinctAsSet(p.subjects.value);
      SameSetSameMultiset(r.subjects, Names(p.subjects.value));
    }
  }

  /** Something the patch supplies is not what the record holds. */
  ghost predicate AsksForChange(r: Record, p: Patch) {
    || (exists f :: f in p.text && p.text[f] != r.text[f])
    || (p.year.Some? && p.year != r.year)
    || (p.authors.Some? && p.authors.value != r.authors)
    || (p.subjects.Some? && (set v | v in p.subjects.value) != r.subjects)
  }

  /** The record after an edit, column by column: what was supplied, and otherwise what it was. */
  ghost predicate Holds(before: Record, p: Patch, lead: string -> char, after: Record) {
    && (forall f: Field :: after.text[f] == if f in p.text then p.text[f] else before.text[f])
    && after.lcc == (if CallNumber in p.text then lead(p.text[CallNumber]) else before.lcc)
    && after.year == (if p.year.Some? then p.year else before.year)
    && after.authors == (if p.authors.Some? then p.authors.value else before.authors)
    && after.subjects == if p.subjects.Some? then (set v | v in p.subjects.value) else before.subjects
  }

  lemma ChangeIffAsked(r: Record, p: Patch, lead: string -> char)
    requires StoredForm(p)
    ensures Changed(r, p) != {} <==> AsksForChange(r, p)
  {
    StoredAsWritten(r, p, lead);
    if AsksForChange(r, p) {
      if f :| f in p.text && p.text[f] != r.text[f] {
        assert TextPart(f) in Changed(r, p);
      } else if p.year.Some? && p.year != r.year {
        assert YearPart in Changed(r, p);
      } else if p.authors.Some? && p.authors.value != r.authors {
        assert AuthorsPart in Changed(r, p);
      } else {
        assert SubjectsPart in Changed(r, p);
      }
    } else {
      forall part ensures part !in Changed(r, p) {
      }
    }
  }

  /** What an edit answers: unknown books, patches that change nothing, blank call numbers and an
    ISBN-13 another book holds, in that order; and otherwise the record that holds what was supplied. */
  lemma EditOutcome(books: seq<Record>, id: nat, p: Patch, lead: string -> char)
    requires StoredForm(p)
    ensures var answer := Edit(books, id, p, lead);
      && (answer == NotFound <==> id >= |books|)
      && (id < |books| ==>
            var r := books[id];
            var asked, isbn := AsksForChange(r, p), if Isbn13 in p.text then p.text[Isbn13] else r.text[Isbn13];
            var blank := CallNumber in p.text && Text.Trim(p.text[CallNumber]) == "";
            var held := isbn != "" && exists k :: 0 <= k < |books| && k != id && books[k].text[Isbn13] == isbn;
            && (!asked ==> answer == Stored(r))
            && (answer == InvalidCallNumber <==> asked && blank)
            && (answer == DuplicateIsbn <==> asked && !blank && held)
            && (asked && !blank && !held ==> answer.Stored? && Holds(r, p, lead, answer.record)))
  {
    if id < |books| {
      ChangeIffAsked(books[id], p, lead);
      StoredAsWritten(books[id], p, lead);
    }
  }

  /** One of the names is `v` once trimmed. */
  predicate Listed(names: seq<string>, v: string) {
    exists i :: 0 <= i < |names| && Text.Trim(names[i]) == v
  }

  lemma ListedNext(names: seq<string>, v: string)
    requires names != []
    ensures Listed(names, v) <==> Listed(names[..|names| - 1], v) || Text.Trim(names[|names| - 1]) == v
  {
    var n := |names| - 1;
    if i :| 0 <= i < |names| && Text.Trim(names[i]) == v {
      assert i < n ==> names[..n][i] == names[i];
    }
    if i :| 0 <= i < n && Text.Trim(names[..n][i]) == v {
      assert names[i] == names[..n][i];
    }
  }

  /** Linking keeps every name once, trimmed, unless it is blank. */
  lemma {:induction false} LinkedMeans(names: seq<string>)
    ensures forall v :: v in Linked(names) <==> v != "" && Listed(names, v)
    ensures Distinct(Linked(names))
  {
    if names != [] {
      LinkedMeans(names[..|names| - 1]);
      forall v {
        ListedNext(names, v);
      }
    }
  }

  lemma ListedLonger(names: seq<string>, k: nat, v: string)
    requires k <= |names| && Listed(names[..k], v)
    ensures Listed(names, v)
  {
    var i :| 0 <= i < k && Text.Trim(names[..k][i]) == v;
    assert names[i] == names[..k][i];
  }

  /** Names stand in the order in which they are first listed: as far as a name is listed, so are all
    that stand before it. */
  lemma {:induction false} LinkedInOrder(names: seq<string>, a: nat, b: nat, k: nat)
    requires a < b < |Linked(names)| && k <= |names| && Listed(names[..k], Linked(names)[b])
    ensures Listed(names[..k], Linked(names)[a])
  {
    if k == |names| {
      LinkedMeans(names);
      assert names[..k] == names && Linked(names)[a] in Linked(names);
    } else {
      var front := names[..|names| - 1];
      assert front[..k] == names[..k];
      ListedLonger(front, k, Linked(names)[b]);
      LinkedFront(names, a, b);
      LinkedInOrder(front, a, b, k);
    }
  }

  lemma LinkedFront(names: seq<string>, a: nat, b: nat)
    requires names != [] && a < b < |Linked(names)| && Listed(names[..|names| - 1], Linked(names)[b])
    ensures var front := Linked(names[..|names| - 1]);
      b < |front| && front[a] == Linked(names)[a] && front[b] == Linked(names)[b]
  {
    var front, last := names[..|names| - 1], Text.Trim(names[|names| - 1]);
    LinkedMeans(front);
    assert Linked(names) == Linked(front) || (Linked(names) == Linked(front) + [last] && last !in Linked(front));
    assert b == |Linked(front)| ==> last in Linked(front);
  }

  /** changed_fields is exactly what reads back differently; so what is omitted is untouched. */
  lemma ChangedIsWhatDiffers(r: Record, p: Patch, lead: string -> char, part: Part)
    requires StoredForm(p)
    ensures part in Changed(r, p) <==> ReadBack(Applied(r, p, lead), part) != ReadBack(r, part)
    ensures !Supplied(p, part) ==> part !in Changed(r, p)
  {
    StoredAsWritten(r, p, lead);
  }

  /** Sending a patch in stored form again changes nothing: the record stands and no line is written. */
  lemma ReapplyingIsQuiet(r: Record, p: Patch, lead: string -> char)
    requires StoredForm(p)
    ensures Changed(Applied(r, p, lead), p) == {}
  {
    var after := Applied(r, p, lead);
    StoredAsWritten(r, p, lead);
    StoredAsWritten(after, p, lead);
    forall part ensures !Changes(after, p, part) {
    }
  }

  /** Only author lists in stored form settle: any other list is reported as a change for ever. */
  lemma UncleanAuthorsNeverSettle(r: Record, p: Patch, lead: string -> char)
    requires p.authors.Some? && r.authors == Linked(r.authors)
    ensures AuthorsPart in Changed(Applied(r, p, lead), p) <==> Linked(p.authors.value) != p.authors.value
  {
  }

  /** The later patch wins where both speak. */
  function Then(p: Patch, q: Patch): Patch {
    Patch(p.text + q.text,
          if q.year.Some? then q.year else p.year,
          if q.authors.Some? then q.authors else p.authors,
          if q.subjects.Some? then q.subjects else p.subjects)
  }

  lemma ThenStoredForm(p: Patch, q: Patch)
    requires StoredForm(p) && StoredForm(q)
    ensures StoredForm(Then(p, q))
  {
  }

  lemma WrittenTwice(r: Record, p: Patch, q: Patch, lead: string -> char)
    ensures Written(Written(r, p, lead), q, lead) == Written(r, Then(p, q), lead)
  {
    assert Over(Over(r.text, p.text), q.text) == Over(r.text, p.text + q.text);
  }

  /** On one record, two patches in a row write what the combined patch writes. */
  lemma PatchesCompose(r: Record, p: Patch, q: Patch, lead: string -> char)
    requires StoredForm(p) && StoredForm(q)
    ensures Applied(Applied(r, p, lead), q, lead) == Applied(r, Then(p, q), lead)
  {
    ThenStoredForm(p, q);
    StoredAsWritten(r, p, lead);
    StoredAsWritten(Written(r, p, lead), q, lead);
    StoredAsWritten(r, Then(p, q), lead);
    WrittenTwice(r, p, q, lead);
  }

  ghost predicate Disjoint(p: Patch, q: Patch) {
    forall part: Part :: !(Supplied(p, part) && Supplied(q, part))
  }

  lemma DisjointThen(p: Patch, q: Patch)
    requires Disjoint(p, q)
    ensures Then(p, q) == Then(q, p)
  {
    assert !(Supplied(p, YearPart) && Supplied(q, YearPart));
    assert !(Supplied(p, AuthorsPart) && Supplied(q, AuthorsPart));
    assert !(Supplied(p, SubjectsPart) && Supplied(q, SubjectsPart));
    forall f | f in p.text ensures f !in q.text {
      assert !(Supplied(p, TextPart(f)) && Supplied(q, TextPart(f)));
    }
    assert p.text + q.text == q.text + p.text;
  }

  lemma NamesStored(names: seq<string>)
    requires CleanNames(names).Some?
    ensures Canonical(CleanNames(names).value) && Canonical(Sort(CleanNames(names).value))
  {
    var clean := CleanNames(names).value;
    NamesTwice(names);
    SortedNamesClean(clean);
    assert TrimAll(Sort(clean)) == Sort(clean);
  }

  lemma CallNumberKept(s: string, classMark: string -> bool)
    requires CleanField(CallNumber, s, classMark).Some?
    ensures Text.Trim(CleanField(CallNumber, s, classMark).value) != ""
  {
    Text.TrimTwice(s);
  }

  /** What validation lets through is in stored form and never blanks a call number, so the laws
    hold of it. */
  lemma ValidatedIsStored(p: Patch, thisYear: int, classMark: string -> bool)
    requires Validated(p, thisYear, classMark).Some?
    ensures var q := Validated(p, thisYear, classMark).value; StoredForm(q) && !BlankCallNumber(q)
  {
    if CallNumber in p.text {
      CallNumberKept(p.text[CallNumber], classMark);
    }
    if p.authors.Some? {
      NamesStored(p.authors.value);
    }
    if p.subjects.Some? {
      NamesStored(p.subjects.value);
    }
  }
}
