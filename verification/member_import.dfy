/** Lines of a member spreadsheet (internal/service/member_service.go). A record is a parsed
  line, its fields already picked by column. */
module MemberRecords {
  import Text

  datatype Fields = Fields(identifier: string, email: string, fullName: string, firstName: string,
                           lastName: string, category: string)

  datatype Record = Malformed | Parsed(fields: Fields)

  function LowerChar(c: char): char {
    if 'A' <= c <= 'Z' then (c as int + 32) as char else c
  }

  function Lower(s: string): (r: string)
    ensures |r| == |s| && forall i :: 0 <= i < |s| ==> r[i] == LowerChar(s[i])
  {
    seq(|s|, i requires 0 <= i < |s| => LowerChar(s[i]))
  }

  const CATEGORIES: set<string> := {"undergraduate", "postgraduate", "staff"}

  function Trimmed(f: Fields): Fields {
    var category := Lower(Text.Trim(f.category));
    Fields(Text.Trim(f.identifier), Text.Trim(f.email), Text.Trim(f.fullName), Text.Trim(f.firstName),
           Text.Trim(f.lastName), if category == "" then "undergraduate" else category)
  }

  function DisplayName(f: Fields): string {
    var full := Text.Trim(f.fullName);
    if full != "" then full else Text.Trim(Text.Trim(f.firstName) + " " + Text.Trim(f.lastName))
  }

  predicate ValidNewMember(f: Fields) {
    && Text.Trim(f.identifier) != "" && '@' in f.email && DisplayName(f) != "" && f.category in CATEGORIES
  }

  /** What the import looks at on a line: an unfit line is counted and skipped. */
  datatype Line = Line(fit: bool, identifier: string, email: string) {
    function Key(): string {
      Lower(identifier)
    }
  }

  function Read(r: Record): Line {
    match r
    case Malformed => Line(false, "", "")
    case Parsed(f) => Line(ValidNewMember(Trimmed(f)), Trimmed(f).identifier, Lower(Trimmed(f).email))
  }

  /** Two lines whose fields differ only in surrounding space and in the letter case of the
    category and the email. */
  predicate SameButForSpelling(f: Fields, g: Fields) {
    && Text.Trim(f.identifier) == Text.Trim(g.identifier)
    && Lower(Text.Trim(f.email)) == Lower(Text.Trim(g.email))
    && Text.Trim(f.fullName) == Text.Trim(g.fullName)
    && Text.Trim(f.firstName) == Text.Trim(g.firstName)
    && Text.Trim(f.lastName) == Text.Trim(g.lastName)
    && Lower(Text.Trim(f.category)) == Lower(Text.Trim(g.category))
  }

  lemma LowerKeepsAt(s: string)
    ensures '@' in Lower(s) <==> '@' in s
  {
    if '@' in s {
      var i :| 0 <= i < |s| && s[i] == '@';
      assert Lower(s)[i] == '@';
    }
  }

  /** Padding and letter case do not matter: such lines are read alike, fit or not. */
  lemma ReadIgnoresSpelling(f: Fields, g: Fields)
    requires SameButForSpelling(f, g)
    ensures Read(Parsed(f)) == Read(Parsed(g))
  {
    LowerKeepsAt(Text.Trim(f.email));
    LowerKeepsAt(Text.Trim(g.email));
  }

  /** The same letters, upper or lower case aside. */
  predicate SameLetters(a: string, b: string) {
    && |a| == |b|
    && forall i :: 0 <= i < |a| ==>
         || a[i] == b[i]
         || ('a' <= a[i] <= 'z' && a[i] as int == b[i] as int + 32)
         || ('a' <= b[i] <= 'z' && b[i] as int == a[i] as int + 32)
  }

  /** Lines are of the same member exactly if their identifiers differ at most in letter case. */
  lemma SameKeyIff(a: Line, b: Line)
    ensures a.Key() == b.Key() <==> SameLetters(a.identifier, b.identifier)
  {
    var x, y := a.identifier, b.identifier;
    if a.Key() == b.Key() {
      assert |Lower(x)| == |Lower(y)|;
      forall i | 0 <= i < |x|
        ensures x[i] == y[i] || ('a' <= x[i] <= 'z' && x[i] as int == y[i] as int + 32)
             || ('a' <= y[i] <= 'z' && y[i] as int == x[i] as int + 32)
      {
        assert Lower(x)[i] == Lower(y)[i];
      }
    }
  }

  lemma NameNeedsLetters(first: string, last: string)
    ensures Text.Trim(first + " " + last) != "" <==>
      (exists c :: c in first && !Text.IsSpace(c)) || (exists c :: c in last && !Text.IsSpace(c))
  {
    var both := first + " " + last;
    var from, to := Text.TrimDropsOnlySpace(both);
    if from == to {
      forall c | c in both ensures Text.IsSpace(c) {
        var i :| 0 <= i < |both| && both[i] == c;
      }
      assert forall c :: c in first || c in last ==> c in both;
    } else {
      assert both[from] in both;
    }
  }

  lemma TrimmedIffLetters(s: string)
    ensures Text.Trim(s) != "" <==> exists c :: c in s && !Text.IsSpace(c)
  {
    var from, to := Text.TrimDropsOnlySpace(s);
    if from < to {
      assert s[from] in s;
    }
  }

  lemma SomeName(f: Fields)
    ensures DisplayName(Trimmed(f)) != "" <==>
      Text.Trim(f.fullName) != "" || Text.Trim(f.firstName) != "" || Text.Trim(f.lastName) != ""
  {
    var first, last := Text.Trim(f.firstName), Text.Trim(f.lastName);
    NameNeedsLetters(first, last);
    TrimmedIffLetters(first);
    TrimmedIffLetters(last);
    Text.TrimTwice(f.firstName);
    Text.TrimTwice(f.lastName);
    Text.TrimTwice(f.fullName);
  }

  /** What a line needs: an identifier, an email with an at sign, some name, and a category that is
    one of the three or left out. */
  lemma FitIff(f: Fields)
    ensures var line, category := Read(Parsed(f)), Lower(Text.Trim(f.category));
      && line.identifier == Text.Trim(f.identifier)
      && line.email == Lower(Text.Trim(f.email))
      && (line.fit <==>
            && Text.Trim(f.identifier) != "" && '@' in Text.Trim(f.email)
            && (Text.Trim(f.fullName) != "" || Text.Trim(f.firstName) != "" || Text.Trim(f.lastName) != "")
            && (category == "" || category == "undergraduate" || category == "postgraduate" || category == "staff"))
  {
    var trimmed := Trimmed(f);
    SomeName(f);
    CategoryFits(Lower(Text.Trim(f.category)));
    Text.TrimTwice(f.identifier);
    assert ValidNewMember(trimmed) <==>
        trimmed.identifier != "" && '@' in trimmed.email && DisplayName(trimmed) != ""
        && trimmed.category in CATEGORIES;
  }

  lemma CategoryFits(category: string)
    ensures (if category == "" then "undergraduate" else category) in CATEGORIES <==>
      category == "" || category == "undergraduate" || category == "postgraduate" || category == "staff"
  {
  }

  function ReadAll(records: seq<Record>): (lines: seq<Line>)
    ensures |lines| == |records| && forall k :: 0 <= k < |records| ==> lines[k] == Read(records[k])
  {
    seq(|records|, k requires 0 <= k < |records| => Read(records[k]))
  }
}

/** The import itself: a real run enrols each new line as it is read; a preview enrols nobody
  and settles its new lines afterwards against the identifiers on the roll. */
module MemberImport {
  import opened Tables
  import opened Domain
  import opened MemberRecords

  datatype Status = Unsettled | Valid | Created | Duplicate | Invalid

  datatype Row = Row(identifier: string, status: Status)

  datatype Result = Result(total: nat, valid: nat, created: nat, duplicate: nat, invalid: nat, rows: seq<Row>)

  /** The roll's two unique columns: identifiers compare exactly, emails without case. */
  datatype Roll = Roll(ids: set<string>, emails: set<string>)

  predicate MayCreateMembers(actor: Role) {
    actor == LibrarianRole || actor == AdminRole
  }

  // What the two modes should answer

  /** An earlier well-formed line of the file has the same identifier. */
  predicate Repeated(lines: seq<Line>, k: nat)
    requires k < |lines|
  {
    exists j :: 0 <= j < k && lines[j].fit && lines[j].Key() == lines[k].Key()
  }

  predicate FirstSeen(lines: seq<Line>, k: nat)
    requires k < |lines|
  {
    lines[k].fit && !Repeated(lines, k)
  }

  function RollKeys(roll: Roll): set<string> {
    set id | id in roll.ids :: Lower(id)
  }

  function PreviewStatus(roll: Roll, lines: seq<Line>, k: nat): Status
    requires k < |lines|
  {
    if !lines[k].fit then Invalid
    else if Repeated(lines, k) || lines[k].Key() in RollKeys(roll) then Duplicate
    else Valid
  }

  predicate Taken(roll: Roll, line: Line) {
    line.identifier in roll.ids || line.email in roll.emails
  }

  function Enrol(roll: Roll, line: Line): Roll {
    Roll(roll.ids + {line.identifier}, roll.emails + {line.email})
  }

  /** The roll after the first `n` lines of a real import. */
  function RollAfter(roll: Roll, lines: seq<Line>, actor: Role, n: nat): Roll
    requires n <= |lines|
  {
    if n == 0 then roll
    else
      var before := RollAfter(roll, lines, actor, n - 1);
      if FirstSeen(lines, n - 1) && MayCreateMembers(actor) && !Taken(before, lines[n - 1])
      then Enrol(before, lines[n - 1]) else before
  }

  function ImportStatus(roll: Roll, lines: seq<Line>, actor: Role, k: nat): Status
    requires k < |lines|
  {
    if !lines[k].fit then Invalid
    else if Repeated(lines, k) then Duplicate
    else if !MayCreateMembers(actor) then Invalid
    else if Taken(RollAfter(roll, lines, actor, k), lines[k]) then Duplicate
    else Created
  }

  /** How many rows have this status. */
  function Tally(rows: seq<Row>, status: Status): nat {
    if rows == [] then 0
    else Tally(rows[..|rows| - 1], status) + Bit(rows[|rows| - 1].status == status)
  }

  function HasStatus(status: Status): Row -> bool {
    (row: Row) => row.status == status
  }

  /** A tally is the number of rows with that status. */
  lemma TallyCounts(rows: seq<Row>, status: Status)
    ensures Tally(rows, status) == |set k: nat | k < |rows| && rows[k].status == status|
  {
    assert Matching(rows, HasStatus(status)) == set k: nat | k < |rows| && rows[k].status == status;
    TallyIsCount(rows, status);
  }

  lemma {:induction false} TallyIsCount(rows: seq<Row>, status: Status)
    ensures Tally(rows, status) == CountIf(rows, HasStatus(status))
  {
    if rows == [] {
      CountZero(rows, HasStatus(status));
    } else {
      var front, last := rows[..|rows| - 1], rows[|rows| - 1];
      TallyIsCount(front, status);
      CountAppend(front, last, HasStatus(status));
      assert rows == front + [last];
    }
  }

  lemma {:induction false} TallyUpdate(rows: seq<Row>, at: nat, row: Row, status: Status)
    requires at < |rows|
    ensures Tally(rows[at := row], status)
      == Tally(rows, status) - Bit(rows[at].status == status) + Bit(row.status == status)
  {
    var n := |rows| - 1;
    if at == n {
      assert rows[at := row][..n] == rows[..n];
    } else {
      TallyUpdate(rows[..n], at, row, status);
      assert rows[at := row][..n] == rows[..n][at := row];
    }
  }

  function Statuses(rows: seq<Row>): (all: seq<Status>)
    ensures |all| == |rows| && forall k :: 0 <= k < |rows| ==> all[k] == rows[k].status
  {
    seq(|rows|, k requires 0 <= k < |rows| => rows[k].status)
  }

  function Previewed(roll: Roll, lines: seq<Line>): (all: seq<Status>)
    ensures |all| == |lines| && forall k :: 0 <= k < |lines| ==> all[k] == PreviewStatus(roll, lines, k)
  {
    seq(|lines|, k requires 0 <= k < |lines| => PreviewStatus(roll, lines, k))
  }

  function Imported(roll: Roll, lines: seq<Line>, actor: Role): (all: seq<Status>)
    ensures |all| == |lines| && forall k :: 0 <= k < |lines| ==> all[k] == ImportStatus(roll, lines, actor, k)
  {
    seq(|lines|, k requires 0 <= k < |lines| => ImportStatus(roll, lines, actor, k))
  }

  /** The counts are those of the rows; a created row also counts as valid. */
  predicate Adds(result: Result) {
    && result.total == |result.rows|
    && result.created == Tally(result.rows, Created)
    && result.valid == Tally(result.rows, Valid) + result.created
    && result.duplicate == Tally(result.rows, Duplicate)
    && result.invalid == Tally(result.rows, Invalid)
  }

  function Count(result: Result, row: Row): Result {
    result.(rows := result.rows + [row],
            valid := result.valid + Bit(row.status == Created),
            created := result.created + Bit(row.status == Created),
            duplicate := result.duplicate + Bit(row.status == Duplicate),
            invalid := result.invalid + Bit(row.status == Invalid))
  }

  lemma CountKeepsAdds(result: Result, row: Row)
    requires Adds(result.(total := |result.rows|)) && row.status != Valid
    ensures Adds(Count(result, row).(total := |result.rows| + 1))
  {
  }

  lemma SettleKeepsAdds(result: Result, at: nat, status: Status)
    requires Adds(result) && at < |result.rows| && result.rows[at].status == Unsettled
    requires status == Valid || status == Duplicate
    ensures Adds(result.(rows := result.rows[at := result.rows[at].(status := status)],
                         valid := result.valid + Bit(status == Valid),
                         duplicate := result.duplicate + Bit(status == Duplicate)))
  {
    var row := result.rows[at].(status := status);
    TallyUpdate(result.rows, at, row, Created);
    TallyUpdate(result.rows, at, row, Valid);
    TallyUpdate(result.rows, at, row, Duplicate);
    TallyUpdate(result.rows, at, row, Invalid);
  }

  /** What the first pass writes on line `k`; a preview leaves new identifiers for the second. */
  function FirstPass(roll: Roll, lines: seq<Line>, actor: Role, dryRun: bool, k: nat): Status
    requires k < |lines|
  {
    if !dryRun then ImportStatus(roll, lines, actor, k)
    else if FirstSeen(lines, k) then Unsettled
    else PreviewStatus(roll, lines, k)
  }

  /** Keys of the well-formed lines among the first `n`. */
  function SeenBefore(lines: seq<Line>, n: nat): set<string>
    requires n <= |lines|
  {
    if n == 0 then {}
    else if lines[n - 1].fit then SeenBefore(lines, n - 1) + {lines[n - 1].Key()}
    else SeenBefore(lines, n - 1)
  }

  lemma {:induction false} SeenKeys(lines: seq<Line>, n: nat, key: string)
    requires n <= |lines|
    ensures key in SeenBefore(lines, n) <==> exists j :: 0 <= j < n && lines[j].fit && lines[j].Key() == key
  {
    if n > 0 {
      SeenKeys(lines, n - 1, key);
    }
  }

  lemma SeenIsRepeated(lines: seq<Line>, n: nat)
    requires n < |lines|
    ensures lines[n].Key() in SeenBefore(lines, n) <==> Repeated(lines, n)
  {
    SeenKeys(lines, n, lines[n].Key());
  }

  /** New identifiers of the first `n` lines, by row. */
  function PendingBefore(lines: seq<Line>, n: nat): map<nat, string>
    requires n <= |lines|
  {
    if n == 0 then map[]
    else if FirstSeen(lines, n - 1) then PendingBefore(lines, n - 1)[n - 1 := lines[n - 1].identifier]
    else PendingBefore(lines, n - 1)
  }

  lemma {:induction false} PendingRows(lines: seq<Line>, n: nat)
    requires n <= |lines|
    ensures forall k: nat :: k in PendingBefore(lines, n) <==> k < n && FirstSeen(lines, k)
    ensures forall k: nat :: k in PendingBefore(lines, n) ==> PendingBefore(lines, n)[k] == lines[k].identifier
  {
    if n > 0 {
      PendingRows(lines, n - 1);
    }
  }

  /** The rows so far are what the first pass writes. */
  predicate Passed(rows: seq<Row>, roll: Roll, lines: seq<Line>, actor: Role, dryRun: bool) {
    && |rows| <= |lines| && Named(rows, lines[..|rows|])
    && forall k :: 0 <= k < |rows| ==> rows[k].status == FirstPass(roll, lines, actor, dryRun, k)
  }

  /** Row by row the identifiers of the lines. */
  predicate Named(rows: seq<Row>, lines: seq<Line>) {
    |rows| == |lines| && forall k :: 0 <= k < |rows| ==> rows[k].identifier == lines[k].identifier
  }

  lemma PassedNext(rows: seq<Row>, roll: Roll, lines: seq<Line>, actor: Role, dryRun: bool, row: Row)
    requires Passed(rows, roll, lines, actor, dryRun) && |rows| < |lines|
    requires row == Row(lines[|rows|].identifier, FirstPass(roll, lines, actor, dryRun, |rows|))
    ensures Passed(rows + [row], roll, lines, actor, dryRun)
  {
  }

  // The same, line by line

  /** An earlier fit line names the same member. */
  ghost predicate SeenEarlier(lines: seq<Line>, k: nat)
    requires k < |lines|
  {
    exists j :: 0 <= j < k && lines[j].fit && SameLetters(lines[j].identifier, lines[k].identifier)
  }

  lemma SeenEarlierIff(lines: seq<Line>, k: nat)
    requires k < |lines|
    ensures SeenEarlier(lines, k) <==> Repeated(lines, k)
  {
    forall j | 0 <= j < k ensures SameLetters(lines[j].identifier, lines[k].identifier)
                           <==> lines[j].Key() == lines[k].Key()
    {
      SameKeyIff(lines[j], lines[k]);
    }
  }

  predicate CreatedBefore(lines: seq<Line>, all: seq<Status>, n: nat, value: string, column: Line -> string)
    requires n <= |lines| == |all|
  {
    exists j :: 0 <= j < n && all[j] == Created && column(lines[j]) == value
  }

  lemma CreatedNext(lines: seq<Line>, all: seq<Status>, n: nat, value: string, column: Line -> string)
    requires 0 < n <= |lines| == |all|
    ensures CreatedBefore(lines, all, n, value, column) <==>
      CreatedBefore(lines, all, n - 1, value, column) || (all[n - 1] == Created && column(lines[n - 1]) == value)
  {
  }

  function IdentifierOf(): Line -> string {
    (line: Line) => line.identifier
  }

  function EmailOf(): Line -> string {
    (line: Line) => line.email
  }

  lemma RollNext(roll: Roll, lines: seq<Line>, actor: Role, n: nat)
    requires 0 < n <= |lines|
    ensures var before := RollAfter(roll, lines, actor, n - 1);
      RollAfter(roll, lines, actor, n)
      == if ImportStatus(roll, lines, actor, n - 1) == Created then Enrol(before, lines[n - 1]) else before
  {
  }

  /** Whom a real import has added: the members of the lines it reports as created. */
  lemma {:induction false} CreatedAreOnRoll(roll: Roll, lines: seq<Line>, actor: Role, n: nat, value: string)
    requires n <= |lines|
    ensures var now, all := RollAfter(roll, lines, actor, n), Imported(roll, lines, actor);
      && (value in now.ids <==> value in roll.ids || CreatedBefore(lines, all, n, value, IdentifierOf()))
      && (value in now.emails <==> value in roll.emails || CreatedBefore(lines, all, n, value, EmailOf()))
  {
    if n > 0 {
      var all := Imported(roll, lines, actor);
      CreatedAreOnRoll(roll, lines, actor, n - 1, value);
      RollNext(roll, lines, actor, n);
      CreatedNext(lines, all, n, value, IdentifierOf());
      CreatedNext(lines, all, n, value, EmailOf());
      assert all[n - 1] == ImportStatus(roll, lines, actor, n - 1);
    }
  }

  /** A real import creates a member for the first fit line that names them, if the actor is staff and
    neither their identifier nor their email is taken by the roll or by an earlier created line. */
  lemma ImportOutcome(roll: Roll, lines: seq<Line>, actor: Role, k: nat)
    requires k < |lines|
    ensures var all, line := Imported(roll, lines, actor), lines[k];
      var first, staff := line.fit && !SeenEarlier(lines, k), actor == LibrarianRole || actor == AdminRole;
      && (all[k] == Created <==>
            && first && staff && line.identifier !in roll.ids && line.email !in roll.emails
            && forall j :: 0 <= j < k && all[j] == Created ==> lines[j].email != line.email)
      && (all[k] == Invalid <==> !line.fit || (first && !staff))
      && (all[k] == Duplicate <==> line.fit && all[k] != Created && (staff || SeenEarlier(lines, k)))
  {
    var all := Imported(roll, lines, actor);
    SeenEarlierIff(lines, k);
    CreatedAreOnRoll(roll, lines, actor, k, lines[k].identifier);
    CreatedAreOnRoll(roll, lines, actor, k, lines[k].email);
    if j :| 0 <= j < k && all[j] == Created && lines[j].identifier == lines[k].identifier {
      assert Repeated(lines, k);
    }
  }

  /** A preview calls valid the first fit line of every member whom the roll does not have, letter case
    aside. */
  lemma PreviewOutcome(roll: Roll, lines: seq<Line>, k: nat)
    requires k < |lines|
    ensures var all, line := Previewed(roll, lines), lines[k];
      var known := exists id :: id in roll.ids && SameLetters(id, line.identifier);
      && (all[k] == Valid <==> line.fit && !SeenEarlier(lines, k) && !known)
      && (all[k] == Duplicate <==> line.fit && (SeenEarlier(lines, k) || known))
      && (all[k] == Invalid <==> !line.fit)
  {
    SeenEarlierIff(lines, k);
    forall id | id in roll.ids
      ensures SameLetters(id, lines[k].identifier) <==> Lower(id) == lines[k].Key()
    {
      SameKeyIff(Line(true, id, ""), lines[k]);
    }
  }

  class MemberDesk {
    var ids: set<string>
    var emails: set<string>

    function Members(): Roll
      reads this
    {
      Roll(ids, emails)
    }

    /** The insert into users, refused when either unique column is taken. */
    method Create(line: Line) returns (created: bool)
      modifies this
      ensures created <==> line.identifier !in old(ids) && line.email !in old(emails)
      ensures created ==> ids == old(ids) + {line.identifier} && emails == old(emails) + {line.email}
      ensures Members() == if created then Enrol(old(Members()), line) else old(Members())
    {
      if line.identifier in ids || line.email in emails {
        return false;
      }
      ids := ids + {line.identifier};
      emails := emails + {line.email};
      return true;
    }

    /** One line of the file: the checks in order, then the pending list or the insert. */
    method TakeLine(ghost roll: Roll, ghost lines: seq<Line>, ghost n: nat, line: Line, seen: set<string>,
                    actor: Role, dryRun: bool)
      returns (row: Row)
      requires n < |lines| && lines[n] == line && seen == SeenBefore(lines, n)
      requires Members() == if dryRun then roll else RollAfter(roll, lines, actor, n)
      modifies this
      ensures row == Row(line.identifier, FirstPass(roll, lines, actor, dryRun, n)) && row.status != Valid
      ensures Members() == if dryRun then roll else RollAfter(roll, lines, actor, n + 1)
    {
      SeenIsRepeated(lines, n);
      row := Row(line.identifier, Unsettled);
      if !line.fit {
        return row.(status := Invalid);
      }
      if line.Key() in seen {
        return row.(status := Duplicate);
      }
      if dryRun {
        return row;
      }
      if !MayCreateMembers(actor) {
        return row.(status := Invalid);
      }
      var created := Create(line);
      return row.(status := if created then Created else Duplicate);
    }

    method ImportCSV(records: seq<Record>, actor: Role, dryRun: bool) returns (result: Result)
      modifies this
      ensures result.total == |result.rows| == |records| && Adds(result)
      ensures Named(result.rows, ReadAll(records))
      ensures result.total == result.valid + result.duplicate + result.invalid
      ensures dryRun ==> Members() == old(Members())
      ensures dryRun ==> Statuses(result.rows) == Previewed(old(Members()), ReadAll(records))
      ensures !dryRun ==> Members() == RollAfter(old(Members()), ReadAll(records), actor, |records|)
      ensures !dryRun ==> Statuses(result.rows) == Imported(old(Members()), ReadAll(records), actor)
    {
      result := TakeLines(ReadAll(records), actor, dryRun);
    }

    /** What the loop remembers of a line. */
    method Note(ghost lines: seq<Line>, n: nat, line: Line, seen: set<string>, pending: map<nat, string>, dryRun: bool)
      returns (seen': set<string>, pending': map<nat, string>)
      requires n < |lines| && lines[n] == line && seen == SeenBefore(lines, n)
      requires dryRun ==> pending == PendingBefore(lines, n)
      ensures seen' == SeenBefore(lines, n + 1)
      ensures dryRun ==> pending' == PendingBefore(lines, n + 1)
    {
      SeenIsRepeated(lines, n);
      seen', pending' := seen, pending;
      if line.fit {
        if dryRun && line.Key() !in seen {
          pending' := pending[n := line.identifier];
        }
        seen' := seen + {line.Key()};
      }
    }

    /** Both passes over the lines of a file. */
    method TakeLines(lines: seq<Line>, actor: Role, dryRun: bool) returns (result: Result)
      modifies this
      ensures |result.rows| == |lines| && Adds(result) && Named(result.rows, lines)
      ensures result.total == result.valid + result.duplicate + result.invalid
      ensures dryRun ==> Members() == old(Members())
      ensures dryRun ==> Statuses(result.rows) == Previewed(old(Members()), lines)
      ensures !dryRun ==> Members() == RollAfter(old(Members()), lines, actor, |lines|)
      ensures !dryRun ==> Statuses(result.rows) == Imported(old(Members()), lines, actor)
    {
      ghost var roll := Members();
      var pending;
      result, pending := FirstPassOver(lines, actor, dryRun);
      if dryRun {
        PendingRows(lines, |lines|);
        result := SettlePending(pending, RollKeys(Members()), result, Previewed(roll, lines));
      }
      assert Statuses(result.rows) == if dryRun then Previewed(roll, lines) else Imported(roll, lines, actor);
      EveryRowCountsOnce(result);
    }

    method FirstPassOver(lines: seq<Line>, actor: Role, dryRun: bool)
      returns (result: Result, pending: map<nat, string>)
      modifies this
      ensures |result.rows| == |lines| && Adds(result)
      ensures dryRun ==> pending == PendingBefore(lines, |lines|)
      ensures Members() == if dryRun then old(Members()) else RollAfter(old(Members()), lines, actor, |lines|)
      ensures Passed(result.rows, old(Members()), lines, actor, dryRun)
    {
      ghost var roll := Members();
      result := Result(0, 0, 0, 0, 0, []);
      var seen: set<string> := {};
      pending := map[];
      for n := 0 to |lines|
        invariant |result.rows| == n && Adds(result)
        invariant seen == SeenBefore(lines, n)
        invariant dryRun ==> pending == PendingBefore(lines, n)
        invariant Members() == if dryRun then roll else RollAfter(roll, lines, actor, n)
        invariant Passed(result.rows, roll, lines, actor, dryRun)
      {
        var line := lines[n];
        var row := TakeLine(roll, lines, n, line, seen, actor, dryRun);
        seen, pending := Note(lines, n, line, seen, pending, dryRun);
        CountKeepsAdds(result, row);
        PassedNext(result.rows, roll, lines, actor, dryRun, row);
        result := Count(result, row).(total := result.total + 1);
      }
    }

    /** The preview's second pass, over the pending rows in whatever order the map yields them. */
    method SettlePending(pending: map<nat, string>, taken: set<string>, first: Result, ghost want: seq<Status>)
      returns (result: Result)
      requires |first.rows| == |want| && Adds(first)
      requires forall k :: k in pending ==>
        k < |want| && want[k] == if Lower(pending[k]) in taken then Duplicate else Valid
      requires forall k :: 0 <= k < |want| ==> first.rows[k].status == if k in pending then Unsettled else want[k]
      ensures |result.rows| == |want| && Adds(result)
      ensures forall k :: 0 <= k < |want| ==> result.rows[k] == Row(first.rows[k].identifier, want[k])
    {
      result := first;
      var todo := pending.Keys;
      while todo != {}
        invariant todo <= pending.Keys && |result.rows| == |want| && Adds(result)
        invariant forall k :: 0 <= k < |want| ==>
          result.rows[k] == Row(first.rows[k].identifier, if k in todo then Unsettled else want[k])
        decreases todo
      {
        var at :| at in todo;
        var status := if Lower(pending[at]) in taken then Duplicate else Valid;
        SettleKeepsAdds(result, at, status);
        result := result.(rows := result.rows[at := result.rows[at].(status := status)],
                          valid := result.valid + Bit(status == Valid),
                          duplicate := result.duplicate + Bit(status == Duplicate));
        todo := todo - {at};
      }
    }
  }

  // Conservation and the preview's promise

  /** Once every row is settled, each counts once: total is valid plus duplicate plus invalid. */
  lemma EveryRowCountsOnce(result: Result)
    requires Adds(result) && Unsettled !in Statuses(result.rows)
    ensures result.total == result.valid + result.duplicate + result.invalid
  {
    assert forall k :: 0 <= k < |result.rows| ==> result.rows[k].status == Statuses(result.rows)[k];
    StatusesPartition(result.rows);
  }

  lemma {:induction false} StatusesPartition(rows: seq<Row>)
    requires forall k :: 0 <= k < |rows| ==> rows[k].status != Unsettled
    ensures |rows| == Tally(rows, Valid) + Tally(rows, Created)
                      + Tally(rows, Duplicate) + Tally(rows, Invalid)
  {
    if rows != [] {
      StatusesPartition(rows[..|rows| - 1]);
    }
  }

  /** The emails of the file's new members are unused and all different. */
  ghost predicate FreshEmails(roll: Roll, lines: seq<Line>) {
    && (forall k :: 0 <= k < |lines| && FirstSeen(lines, k) ==> lines[k].email !in roll.emails)
    && (forall j, k :: 0 <= j < k < |lines| && FirstSeen(lines, j) && FirstSeen(lines, k) ==>
          lines[j].email != lines[k].email)
  }

  /** On the roll in another spelling of upper and lower case only. */
  predicate CaseOnlyClash(roll: Roll, line: Line) {
    line.identifier !in roll.ids && line.Key() in RollKeys(roll)
  }

  predicate NamedBefore(lines: seq<Line>, n: nat, id: string)
    requires n <= |lines|
  {
    exists j :: 0 <= j < n && FirstSeen(lines, j) && lines[j].identifier == id
  }

  predicate WrittenBefore(lines: seq<Line>, n: nat, email: string)
    requires n <= |lines|
  {
    exists j :: 0 <= j < n && FirstSeen(lines, j) && lines[j].email == email
  }

  /** What a real import has added so far are earlier new lines of the file. */
  lemma {:induction false} AddedByFile(roll: Roll, lines: seq<Line>, actor: Role, n: nat)
    requires n <= |lines|
    ensures var now := RollAfter(roll, lines, actor, n);
            && (forall id :: id in now.ids ==> id in roll.ids || NamedBefore(lines, n, id))
            && (forall email :: email in now.emails ==> email in roll.emails || WrittenBefore(lines, n, email))
            && roll.ids <= now.ids
  {
    if n > 0 {
      AddedByFile(roll, lines, actor, n - 1);
      var before := RollAfter(roll, lines, actor, n - 1);
      forall id | NamedBefore(lines, n - 1, id) || (FirstSeen(lines, n - 1) && id == lines[n - 1].identifier)
        ensures NamedBefore(lines, n, id)
      {
      }
      forall email | WrittenBefore(lines, n - 1, email) || (FirstSeen(lines, n - 1) && email == lines[n - 1].email)
        ensures WrittenBefore(lines, n, email)
      {
      }
    }
  }

  /** With fresh emails, a new line is refused by the real import exactly if its identifier is on the roll. */
  lemma TakenIffOnRoll(roll: Roll, lines: seq<Line>, actor: Role, k: nat)
    requires k < |lines| && FreshEmails(roll, lines) && FirstSeen(lines, k)
    ensures Taken(RollAfter(roll, lines, actor, k), lines[k]) <==> lines[k].identifier in roll.ids
  {
    AddedByFile(roll, lines, actor, k);
    if j :| 0 <= j < k && FirstSeen(lines, j) && lines[j].identifier == lines[k].identifier {
      assert Repeated(lines, k);
    }
  }

  // When the preview tells the truth

  /** The preview calls a line valid exactly when the real import creates its member. */
  predicate Agree(roll: Roll, lines: seq<Line>, actor: Role, k: nat)
    requires k < |lines|
  {
    Previewed(roll, lines)[k] == Valid <==> Imported(roll, lines, actor)[k] == Created
  }

  predicate NewToRoll(roll: Roll, lines: seq<Line>, k: nat)
    requires k < |lines|
  {
    FirstSeen(lines, k) && lines[k].Key() !in RollKeys(roll)
  }

  predicate EmailedBefore(roll: Roll, lines: seq<Line>, n: nat, email: string)
    requires n <= |lines|
  {
    email in roll.emails || exists j :: 0 <= j < n && NewToRoll(roll, lines, j) && lines[j].email == email
  }

  /** Nothing stands between the line and the answer its identifier suggests: a name new to the
    roll needs a permitted actor and an unused email; a name the preview finds on the roll needs
    the import to be stopped by something. */
  predicate Foretold(roll: Roll, lines: seq<Line>, actor: Role, k: nat)
    requires k < |lines|
  {
    var used := EmailedBefore(roll, lines, k, lines[k].email);
    if lines[k].Key() !in RollKeys(roll) then MayCreateMembers(actor) && !used
    else !MayCreateMembers(actor) || lines[k].identifier in roll.ids || used
  }

  /** While the two agree, the emails the import has stored are those of the lines new to the roll. */
  lemma {:induction false} EmailsFollowPreview(roll: Roll, lines: seq<Line>, actor: Role, n: nat)
    requires n <= |lines| && MayCreateMembers(actor)
    requires forall k :: 0 <= k < n ==> Agree(roll, lines, actor, k)
    ensures forall email ::
      email in RollAfter(roll, lines, actor, n).emails <==> EmailedBefore(roll, lines, n, email)
  {
    if n > 0 {
      EmailsFollowPreview(roll, lines, actor, n - 1);
      assert Agree(roll, lines, actor, n - 1);
      forall email
        ensures EmailedBefore(roll, lines, n, email) <==>
          EmailedBefore(roll, lines, n - 1, email) || (NewToRoll(roll, lines, n - 1) && lines[n - 1].email == email)
      {
      }
    }
  }

  lemma AgreeIffForetold(roll: Roll, lines: seq<Line>, actor: Role, k: nat)
    requires k < |lines| && FirstSeen(lines, k)
    requires forall j :: 0 <= j < k ==> Agree(roll, lines, actor, j)
    ensures Agree(roll, lines, actor, k) <==> Foretold(roll, lines, actor, k)
  {
    AddedByFile(roll, lines, actor, k);
    if j :| 0 <= j < k && FirstSeen(lines, j) && lines[j].identifier == lines[k].identifier {
      assert Repeated(lines, k);
    }
    if MayCreateMembers(actor) {
      EmailsFollowPreview(roll, lines, actor, k);
    }
  }

  lemma {:induction false} AgreeUpTo(roll: Roll, lines: seq<Line>, actor: Role, n: nat)
    requires n <= |lines|
    ensures (forall k :: 0 <= k < n ==> Agree(roll, lines, actor, k))
       <==> (forall k :: 0 <= k < n && FirstSeen(lines, k) ==> Foretold(roll, lines, actor, k))
  {
    if n > 0 {
      AgreeUpTo(roll, lines, actor, n - 1);
      if FirstSeen(lines, n - 1) && forall k :: 0 <= k < n - 1 ==> Agree(roll, lines, actor, k) {
        AgreeIffForetold(roll, lines, actor, n - 1);
      }
    }
  }

  /** For every file, roll and actor: the preview's valid lines are exactly those the real import
    creates if and only if every line seen for the first time is foretold. */
  lemma PreviewEqualsImport(roll: Roll, lines: seq<Line>, actor: Role)
    ensures (forall k :: 0 <= k < |lines| ==> Agree(roll, lines, actor, k))
       <==> (forall k :: 0 <= k < |lines| && FirstSeen(lines, k) ==> Foretold(roll, lines, actor, k))
  {
    AgreeUpTo(roll, lines, actor, |lines|);
  }

  /** With a permitted actor and fresh emails all that can go wrong is letter case: a new
    identifier that is on the roll in another spelling. */
  lemma OnlyCaseDisagrees(roll: Roll, lines: seq<Line>, actor: Role)
    requires MayCreateMembers(actor) && FreshEmails(roll, lines)
    ensures (forall k :: 0 <= k < |lines| ==> Agree(roll, lines, actor, k))
       <==> (forall k :: 0 <= k < |lines| && FirstSeen(lines, k) ==> !CaseOnlyClash(roll, lines[k]))
  {
    PreviewEqualsImport(roll, lines, actor);
    forall k | 0 <= k < |lines| && FirstSeen(lines, k)
      ensures Foretold(roll, lines, actor, k) <==> !CaseOnlyClash(roll, lines[k])
    {
      if lines[k].identifier in roll.ids {
        assert lines[k].Key() in RollKeys(roll);
      }
    }
  }
}
