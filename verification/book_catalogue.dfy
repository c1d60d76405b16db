/** The patch laws for whole edits (internal/repository/postgres/book_edit_repo.go): what they
  leave of the catalogue, refusals included. */
module BookCatalogue {
  import opened Tables
  import opened BookMetadata
  import opened BookPatch

  /** The class letter is that of the call number. */
  predicate Shelved(r: Record, lead: string -> char) {
    r.lcc == lead(r.text[CallNumber])
  }

  predicate IsbnsUnique(books: seq<Record>) {
    forall i, j :: 0 <= i < |books| && 0 <= j < |books| && i != j && books[i].text[Isbn13] != "" ==>
      books[i].text[Isbn13] != books[j].text[Isbn13]
  }

  predicate Sound(books: seq<Record>, lead: string -> char) {
    IsbnsUnique(books) && forall i :: 0 <= i < |books| ==> Shelved(books[i], lead)
  }

  /** What one edit leaves. */
  function After(books: seq<Record>, id: nat, p: Patch, lead: string -> char): seq<Record> {
    var answer := Edit(books, id, p, lead);
    if answer.Stored? then books[id := answer.record] else books
  }

  function IsbnAfter(r: Record, p: Patch): string {
    Over(r.text, p.text)[Isbn13]
  }

  /** An edit that changes nothing would also have written nothing. */
  lemma UnchangedIsApplied(r: Record, p: Patch, lead: string -> char)
    requires Changed(r, p) == {} && Shelved(r, lead)
    ensures Applied(r, p, lead) == r
  {
    forall f | f in p.text ensures p.text[f] == r.text[f] {
      assert !Changes(r, p, TextPart(f));
    }
    assert !Changes(r, p, YearPart) && !Changes(r, p, AuthorsPart) && !Changes(r, p, SubjectsPart);
  }

  lemma StoredIsApplied(books: seq<Record>, id: nat, p: Patch, lead: string -> char)
    requires Sound(books, lead) && Edit(books, id, p, lead).Stored?
    ensures After(books, id, p, lead) == books[id := Applied(books[id], p, lead)]
  {
    if Changed(books[id], p) == {} {
      UnchangedIsApplied(books[id], p, lead);
    }
  }

  lemma OwnIsbnNotHeld(books: seq<Record>, id: nat)
    requires IsbnsUnique(books) && id < |books|
    ensures !IsbnHeld(books, id, books[id].text[Isbn13])
  {
  }

  lemma HeldElsewhere(books: seq<Record>, id: nat, r: Record, isbn: string)
    requires id < |books|
    ensures IsbnHeld(books[id := r], id, isbn) <==> IsbnHeld(books, id, isbn)
  {
    forall other | 0 <= other < |books| && other != id ensures books[id := r][other] == books[other] {
    }
  }

  lemma NewIsbnNotHeld(books: seq<Record>, id: nat, p: Patch, lead: string -> char)
    requires Sound(books, lead) && Edit(books, id, p, lead).Stored?
    ensures !IsbnHeld(books, id, IsbnAfter(books[id], p))
  {
    OwnIsbnNotHeld(books, id);
    if Changed(books[id], p) == {} {
      UnchangedIsApplied(books[id], p, lead);
    }
  }

  /** Every edit, stored or refused, keeps ISBNs unique and each class letter that of its call number. */
  lemma EditKeepsSound(books: seq<Record>, id: nat, p: Patch, lead: string -> char)
    requires Sound(books, lead)
    ensures Sound(After(books, id, p, lead), lead)
  {
    if Edit(books, id, p, lead).Stored? {
      StoredIsApplied(books, id, p, lead);
      NewIsbnNotHeld(books, id, p, lead);
    }
  }

  /** When an edit is stored, for a patch that does not blank the call number. */
  lemma StoredIffIsbnFree(books: seq<Record>, id: nat, p: Patch, lead: string -> char)
    requires Sound(books, lead) && id < |books| && !BlankCallNumber(p)
    ensures Edit(books, id, p, lead).Stored? <==> !IsbnHeld(books, id, IsbnAfter(books[id], p))
  {
    if Edit(books, id, p, lead).Stored? {
      NewIsbnNotHeld(books, id, p, lead);
    }
  }

  // Two edits against their combination

  /** When two edits in a row leave what the combined edit leaves. */
  predicate Composes(books: seq<Record>, id: nat, p: Patch, q: Patch)
    requires id < |books|
  {
    var r := books[id];
    if !IsbnHeld(books, id, IsbnAfter(r, p)) then
      !IsbnHeld(books, id, IsbnAfter(r, Then(p, q))) || Changed(r, p) == {}
    else if Isbn13 !in q.text then Changed(r, q) == {}
    else IsbnHeld(books, id, q.text[Isbn13]) || Untouched(r, p, q)
  }

  /** What only the first patch supplies is in the record already. */
  predicate Untouched(r: Record, p: Patch, q: Patch) {
    forall part :: part in Changed(r, p) ==> Supplied(q, part)
  }

  predicate Lawful(p: Patch) {
    StoredForm(p) && !BlankCallNumber(p)
  }

  lemma ThenLawful(p: Patch, q: Patch)
    requires Lawful(p) && Lawful(q)
    ensures Lawful(Then(p, q))
  {
    ThenStoredForm(p, q);
  }

  lemma IsbnAfterBoth(r: Record, p: Patch, q: Patch, lead: string -> char)
    ensures IsbnAfter(Applied(r, p, lead), q) == IsbnAfter(r, Then(p, q))
  {
  }

  lemma NothingWrittenNothingChanged(r: Record, p: Patch, lead: string -> char)
    requires StoredForm(p) && Shelved(r, lead)
    ensures Applied(r, p, lead) == r <==> Changed(r, p) == {}
  {
    if Changed(r, p) == {} {
      UnchangedIsApplied(r, p, lead);
    } else {
      var part :| part in Changed(r, p);
      ChangedIsWhatDiffers(r, p, lead, part);
    }
  }

  lemma UpdateTwice(books: seq<Record>, id: nat, r: Record, r': Record)
    requires id < |books|
    ensures books[id := r][id := r'] == books[id := r']
    ensures books[id := r] == books[id := r'] <==> r == r'
    ensures books[id := r] == books <==> r == books[id]
  {
    if books[id := r] == books[id := r'] {
      assert books[id := r][id] == books[id := r'][id];
    }
    if books[id := r] == books {
      assert books[id := r][id] == books[id];
    }
  }

  /** Both stored: the combined edit is stored too and leaves the same. */
  lemma StoredEditsCompose(books: seq<Record>, id: nat, p: Patch, q: Patch, lead: string -> char)
    requires Sound(books, lead) && Lawful(p) && Lawful(q) && Edit(books, id, p, lead).Stored?
    requires Edit(After(books, id, p, lead), id, q, lead).Stored?
    ensures Edit(books, id, Then(p, q), lead).Stored?
    ensures After(After(books, id, p, lead), id, q, lead) == After(books, id, Then(p, q), lead)
  {
    var r, books1 := books[id], After(books, id, p, lead);
    ThenLawful(p, q);
    StoredIsApplied(books, id, p, lead);
    EditKeepsSound(books, id, p, lead);
    StoredIsApplied(books1, id, q, lead);
    NewIsbnNotHeld(books1, id, q, lead);
    IsbnAfterBoth(r, p, q, lead);
    HeldElsewhere(books, id, Applied(r, p, lead), IsbnAfter(r, Then(p, q)));
    StoredIffIsbnFree(books, id, Then(p, q), lead);
    StoredIsApplied(books, id, Then(p, q), lead);
    PatchesCompose(r, p, q, lead);
    UpdateTwice(books, id, Applied(r, p, lead), Applied(Applied(r, p, lead), q, lead));
  }

  /** The first stored, the second refused for its ISBN: so is the combined one. */
  lemma SecondRefused(books: seq<Record>, id: nat, p: Patch, q: Patch, lead: string -> char)
    requires Sound(books, lead) && Lawful(p) && Lawful(q) && Edit(books, id, p, lead).Stored?
    requires !Edit(After(books, id, p, lead), id, q, lead).Stored?
    ensures IsbnHeld(books, id, IsbnAfter(books[id], Then(p, q)))
    ensures After(After(books, id, p, lead), id, q, lead) == After(books, id, Then(p, q), lead)
      <==> Changed(books[id], p) == {}
  {
    var r := books[id];
    ThenLawful(p, q);
    StoredIsApplied(books, id, p, lead);
    EditKeepsSound(books, id, p, lead);
    StoredIffIsbnFree(After(books, id, p, lead), id, q, lead);
    IsbnAfterBoth(r, p, q, lead);
    HeldElsewhere(books, id, Applied(r, p, lead), IsbnAfter(r, Then(p, q)));
    StoredIffIsbnFree(books, id, Then(p, q), lead);
    NothingWrittenNothingChanged(r, p, lead);
    UpdateTwice(books, id, Applied(r, p, lead), r);
  }

  /** Writing more than `q` alone shows exactly if `p` touches something `q` does not supply. */
  lemma UntouchedIffSame(r: Record, p: Patch, q: Patch, lead: string -> char)
    requires Shelved(r, lead) && Lawful(p) && Lawful(q)
    ensures Applied(r, Then(p, q), lead) == Applied(r, q, lead) <==> Untouched(r, p, q)
  {
    ThenStoredForm(p, q);
    StoredAsWritten(r, p, lead);
    StoredAsWritten(r, q, lead);
    StoredAsWritten(r, Then(p, q), lead);
    if Untouched(r, p, q) {
      UntouchedWritesNothing(r, p, q, lead);
    } else {
      var part :| part in Changed(r, p) && !Supplied(q, part);
      ChangedIsWhatDiffers(r, p, lead, part);
      assert ReadBack(Written(r, q, lead), part) == ReadBack(r, part);
      assert ReadBack(Written(r, Then(p, q), lead), part) == ReadBack(Written(r, p, lead), part);
    }
  }

  lemma UntouchedText(r: Record, p: Patch, q: Patch)
    requires Untouched(r, p, q)
    ensures forall f: Field :: f in p.text && f !in q.text ==> p.text[f] == r.text[f]
    ensures Over(r.text, p.text + q.text) == Over(r.text, q.text)
  {
    forall f: Field | f in p.text && f !in q.text ensures p.text[f] == r.text[f] {
      assert !Supplied(q, TextPart(f)) && TextPart(f) !in Changed(r, p);
    }
  }

  lemma UntouchedPart(r: Record, p: Patch, q: Patch, part: Part)
    requires Untouched(r, p, q) && !Supplied(q, part)
    ensures !Changes(r, p, part)
  {
    assert part !in Changed(r, p);
  }

  lemma UntouchedWritesNothing(r: Record, p: Patch, q: Patch, lead: string -> char)
    requires Shelved(r, lead) && StoredForm(p) && Untouched(r, p, q)
    ensures Written(r, Then(p, q), lead) == Written(r, q, lead)
  {
    UntouchedText(r, p, q);
    StoredAsWritten(r, p, lead);
    if !Supplied(q, YearPart) { UntouchedPart(r, p, q, YearPart); }
    if !Supplied(q, AuthorsPart) { UntouchedPart(r, p, q, AuthorsPart); }
    if !Supplied(q, SubjectsPart) { UntouchedPart(r, p, q, SubjectsPart); }
    assert Then(p, q).text == p.text + q.text;
  }

  lemma FirstRefused(books: seq<Record>, id: nat, p: Patch, q: Patch, lead: string -> char)
    requires Sound(books, lead) && Lawful(p) && Lawful(q) && id < |books|
    requires IsbnHeld(books, id, IsbnAfter(books[id], p))
    ensures After(After(books, id, p, lead), id, q, lead) == After(books, id, Then(p, q), lead)
      <==> Composes(books, id, p, q)
  {
    var r := books[id];
    ThenLawful(p, q);
    OwnIsbnNotHeld(books, id);
    StoredIffIsbnFree(books, id, p, lead);
    StoredIffIsbnFree(books, id, q, lead);
    StoredIffIsbnFree(books, id, Then(p, q), lead);
    if Isbn13 !in q.text {
      StoredIsApplied(books, id, q, lead);
      NothingWrittenNothingChanged(r, q, lead);
      UpdateTwice(books, id, Applied(r, q, lead), r);
    } else if !IsbnHeld(books, id, q.text[Isbn13]) {
      StoredIsApplied(books, id, q, lead);
      StoredIsApplied(books, id, Then(p, q), lead);
      UntouchedIffSame(r, p, q, lead);
      UpdateTwice(books, id, Applied(r, q, lead), Applied(r, Then(p, q), lead));
    }
  }

  /** Two edits in a row leave what the combined edit leaves if and only if `Composes`: both go
    through, or what is lost by a refusal was not worth keeping. */
  lemma EditsCompose(books: seq<Record>, id: nat, p: Patch, q: Patch, lead: string -> char)
    requires Sound(books, lead) && Lawful(p) && Lawful(q) && id < |books|
    ensures After(After(books, id, p, lead), id, q, lead) == After(books, id, Then(p, q), lead)
      <==> Composes(books, id, p, q)
  {
    StoredIffIsbnFree(books, id, p, lead);
    if IsbnHeld(books, id, IsbnAfter(books[id], p)) {
      FirstRefused(books, id, p, q, lead);
    } else if Edit(After(books, id, p, lead), id, q, lead).Stored? {
      StoredEditsCompose(books, id, p, q, lead);
      ThenLawful(p, q);
      StoredIffIsbnFree(books, id, Then(p, q), lead);
    } else {
      SecondRefused(books, id, p, q, lead);
    }
  }

  const BLANK: Texts := map f: Field :: ""

  function Shelf(lead: string -> char): seq<Record> {
    [Record(BLANK[Isbn13 := "A"], lead(""), None, [], {}), Record(BLANK, lead(""), None, [], {})]
  }

  function TextOnly(fields: map<Field, string>): Patch {
    Patch(fields, None, None, None)
  }

  lemma ShelfAnswers(lead: string -> char, fields: map<Field, string>)
    requires Isbn13 in fields && CallNumber !in fields
    ensures Sound(Shelf(lead), lead)
    ensures IsbnHeld(Shelf(lead), 1, fields[Isbn13]) <==> fields[Isbn13] == "A"
    ensures fields[Isbn13] == "A" ==> After(Shelf(lead), 1, TextOnly(fields), lead) == Shelf(lead)
    ensures fields[Isbn13] != "A" ==>
      After(Shelf(lead), 1, TextOnly(fields), lead)[1] == Applied(Shelf(lead)[1], TextOnly(fields), lead)
  {
    var books := Shelf(lead);
    assert fields[Isbn13] == "A" ==> books[0].text[Isbn13] == fields[Isbn13];
    StoredIffIsbnFree(books, 1, TextOnly(fields), lead);
    if fields[Isbn13] != "A" {
      StoredIsApplied(books, 1, TextOnly(fields), lead);
    }
  }

  /** A refused edit loses what it said: the combined edit would have stored the title. */
  lemma RefusedEditIsLost(lead: string -> char)
    ensures var p, q := TextOnly(map[Isbn13 := "A", Title := "T"]), TextOnly(map[Isbn13 := "B"]);
      && After(After(Shelf(lead), 1, p, lead), 1, q, lead)[1].text[Title] == ""
      && After(Shelf(lead), 1, Then(p, q), lead)[1].text[Title] == "T"
  {
    var first, second := map[Isbn13 := "A", Title := "T"], map[Isbn13 := "B"];
    ShelfAnswers(lead, first);
    ShelfAnswers(lead, second);
    ShelfAnswers(lead, first + second);
  }

  // Edits of different fields

  /** An edit of other fields changes neither what a patch would change nor whether it is stored. */
  lemma OtherFieldsDoNotMatter(books: seq<Record>, id: nat, p: Patch, q: Patch, lead: string -> char)
    requires Sound(books, lead) && Disjoint(p, q) && id < |books| && Edit(books, id, q, lead).Stored?
    ensures Edit(After(books, id, q, lead), id, p, lead).Stored? <==> Edit(books, id, p, lead).Stored?
  {
    var r, r' := books[id], Applied(books[id], q, lead);
    StoredIsApplied(books, id, q, lead);
    SameChanges(r, p, q, lead);
    EditKeepsSound(books, id, q, lead);
    OwnIsbnNotHeld(books, id);
    OwnIsbnNotHeld(books[id := r'], id);
    HeldElsewhere(books, id, r', IsbnAfter(r', p));
  }

  lemma SameChanges(r: Record, p: Patch, q: Patch, lead: string -> char)
    requires Disjoint(p, q)
    ensures Changed(Applied(r, q, lead), p) == Changed(r, p)
  {
    forall part ensures Changes(Applied(r, q, lead), p, part) <==> Changes(r, p, part) {
      assert !(Supplied(p, part) && Supplied(q, part));
    }
  }

  /** Edits of different fields commute, whether they are stored or refused. */
  lemma DisjointEditsCommute(books: seq<Record>, id: nat, p: Patch, q: Patch, lead: string -> char)
    requires Sound(books, lead) && StoredForm(p) && StoredForm(q) && Disjoint(p, q)
    ensures After(After(books, id, p, lead), id, q, lead) == After(After(books, id, q, lead), id, p, lead)
  {
    var storedP, storedQ := Edit(books, id, p, lead).Stored?, Edit(books, id, q, lead).Stored?;
    if storedQ { OtherFieldsDoNotMatter(books, id, p, q, lead); }
    if storedP { OtherFieldsDoNotMatter(books, id, q, p, lead); }
    if storedP && storedQ {
      StoredTwice(books, id, p, q, lead);
      StoredTwice(books, id, q, p, lead);
      DisjointThen(p, q);
    }
  }

  lemma StoredTwice(books: seq<Record>, id: nat, p: Patch, q: Patch, lead: string -> char)
    requires Sound(books, lead) && StoredForm(p) && StoredForm(q) && Edit(books, id, p, lead).Stored?
    requires Edit(After(books, id, p, lead), id, q, lead).Stored?
    ensures After(After(books, id, p, lead), id, q, lead) == books[id := Applied(books[id], Then(p, q), lead)]
  {
    var r := books[id];
    StoredIsApplied(books, id, p, lead);
    EditKeepsSound(books, id, p, lead);
    StoredIsApplied(After(books, id, p, lead), id, q, lead);
    PatchesCompose(r, p, q, lead);
    UpdateTwice(books, id, Applied(r, p, lead), Applied(Applied(r, p, lead), q, lead));
  }
}
