/** The migration runner (internal/migrate/migrate.go): one transaction per file, a ledger of
  what has been applied, and runs that can be interrupted anywhere. One runner at a time. */
module Migrate {
  import opened Tables

  type Name = string
  type Checksum = string

  datatype Migration = Migration(name: Name, checksum: Checksum, seed: bool)

  /** How the transaction for one file ends: applied, rolled back, or committed with the
    acknowledgement lost, which the runner cannot tell from a failure. */
  datatype Outcome = Committed | RolledBack | AckLost

  /** `ledger` is schema_migrations; `effects` lists the files whose SQL has taken effect, in order. */
  datatype State = State(ledger: map<Name, Checksum>, effects: seq<Name>)

  datatype Report = Report(ran: seq<Name>, ok: bool)

  predicate NamesDistinct(files: seq<Migration>) {
    forall i, j :: 0 <= i < j < |files| ==> files[i].name != files[j].name
  }

  predicate Eligible(m: Migration, seeds: bool) {
    !m.seed || seeds
  }

  predicate Due(m: Migration, ledger: map<Name, Checksum>, seeds: bool) {
    m.name !in ledger && Eligible(m, seeds)
  }

  predicate Tampered(m: Migration, ledger: map<Name, Checksum>) {
    m.name in ledger && ledger[m.name] != m.checksum
  }

  /** The names, in file order, of the files satisfying `p`. */
  function NamesOf(files: seq<Migration>, p: Migration -> bool): seq<Name> {
    if files == [] then []
    else
      var n := |files| - 1;
      NamesOf(files[..n], p) + (if p(files[n]) then [files[n].name] else [])
  }

  function DueFor(ledger: map<Name, Checksum>, seeds: bool): Migration -> bool {
    (m: Migration) => Due(m, ledger, seeds)
  }

  function EligibleFor(seeds: bool): Migration -> bool {
    (m: Migration) => Eligible(m, seeds)
  }

  /** What Pending lists. */
  function Pending(files: seq<Migration>, ledger: map<Name, Checksum>, seeds: bool): seq<Name> {
    NamesOf(files, DueFor(ledger, seeds))
  }

  /** A run goes past this file: it is already applied, not due, or commits. */
  predicate Passes(m: Migration, ledger: map<Name, Checksum>, seeds: bool, outcome: Outcome) {
    !Tampered(m, ledger) && (Due(m, ledger, seeds) ==> outcome == Committed)
  }

  function Commit(s: State, m: Migration): State {
    State(s.ledger[m.name := m.checksum], s.effects + [m.name])
  }

  function AfterFile(s: State, m: Migration, ledger: map<Name, Checksum>, seeds: bool, outcome: Outcome): State {
    if Due(m, ledger, seeds) && outcome != RolledBack then Commit(s, m) else s
  }

  /** The database after the first `n` files of a run that passed all of them. */
  function AfterFiles(s: State, files: seq<Migration>, seeds: bool, outcomes: seq<Outcome>, n: nat): State
    requires n <= |files| == |outcomes|
  {
    if n == 0 then s
    else AfterFile(AfterFiles(s, files, seeds, outcomes, n - 1), files[n - 1], s.ledger, seeds, outcomes[n - 1])
  }

  /** The first file a run cannot get past. */
  function StopsAt(s: State, files: seq<Migration>, seeds: bool, outcomes: seq<Outcome>, i: nat): (stop: nat)
    requires i <= |files| == |outcomes|
    ensures i <= stop <= |files|
    ensures forall j :: i <= j < stop ==> Passes(files[j], s.ledger, seeds, outcomes[j])
    ensures stop < |files| ==> !Passes(files[stop], s.ledger, seeds, outcomes[stop])
    decreases |files| - i
  {
    if i == |files| || !Passes(files[i], s.ledger, seeds, outcomes[i]) then i
    else StopsAt(s, files, seeds, outcomes, i + 1)
  }

  /** One Apply: everything before the stop, and the stopping file's own transaction. */
  function Applied(s: State, files: seq<Migration>, seeds: bool, outcomes: seq<Outcome>): State
    requires |outcomes| == |files|
  {
    var stop := StopsAt(s, files, seeds, outcomes, 0);
    AfterFiles(s, files, seeds, outcomes, if stop < |files| then stop + 1 else stop)
  }

  lemma PassesFile(s: State, files: seq<Migration>, seeds: bool, outcomes: seq<Outcome>, i: nat)
    requires i < |files| == |outcomes| && Passes(files[i], s.ledger, seeds, outcomes[i])
    ensures StopsAt(s, files, seeds, outcomes, i) == StopsAt(s, files, seeds, outcomes, i + 1)
    ensures var now, due := AfterFiles(s, files, seeds, outcomes, i), Due(files[i], s.ledger, seeds);
      && AfterFiles(s, files, seeds, outcomes, i + 1) == (if due then Commit(now, files[i]) else now)
      && Pending(files[..i + 1], s.ledger, seeds)
         == Pending(files[..i], s.ledger, seeds) + if due then [files[i].name] else []
  {
    assert files[..i + 1][..i] == files[..i];
  }

  lemma StopsAtFile(s: State, files: seq<Migration>, seeds: bool, outcomes: seq<Outcome>, i: nat)
    requires i < |files| == |outcomes| && !Passes(files[i], s.ledger, seeds, outcomes[i])
    ensures StopsAt(s, files, seeds, outcomes, i) == i
    ensures var now, due := AfterFiles(s, files, seeds, outcomes, i), Due(files[i], s.ledger, seeds);
      AfterFiles(s, files, seeds, outcomes, i + 1)
      == if due && outcomes[i] != RolledBack then Commit(now, files[i]) else now
  {
  }

  class Database {
    var ledger: map<Name, Checksum>
    ghost var effects: seq<Name>

    ghost function Snapshot(): State
      reads this
    {
      State(ledger, effects)
    }

    /** One file's transaction: the ledger row commits with the statements or not at all. */
    method RunFile(m: Migration, outcome: Outcome)
      modifies this
      ensures Snapshot() == if outcome != RolledBack then Commit(old(Snapshot()), m) else old(Snapshot())
    {
      if outcome != RolledBack {
        ledger := ledger[m.name := m.checksum];
        effects := effects + [m.name];
      }
    }

    method Apply(files: seq<Migration>, seeds: bool, outcomes: seq<Outcome>) returns (report: Report)
      requires |outcomes| == |files| && NamesDistinct(files)
      modifies this
      ensures Snapshot() == Applied(old(Snapshot()), files, seeds, outcomes)
      ensures report.ok <==> StopsAt(old(Snapshot()), files, seeds, outcomes, 0) == |files|
      ensures report.ran == Pending(files[..StopsAt(old(Snapshot()), files, seeds, outcomes, 0)], old(ledger), seeds)
    {
      ghost var begun := Snapshot();
      var applied := ledger;
      var ran := [];
      var i := 0;
      while i < |files|
        invariant i <= |files|
        invariant Snapshot() == AfterFiles(begun, files, seeds, outcomes, i)
        invariant ran == Pending(files[..i], begun.ledger, seeds)
        invariant StopsAt(begun, files, seeds, outcomes, 0) == StopsAt(begun, files, seeds, outcomes, i)
      {
        var m := files[i];
        if Passes(m, begun.ledger, seeds, outcomes[i]) {
          PassesFile(begun, files, seeds, outcomes, i);
        } else {
          StopsAtFile(begun, files, seeds, outcomes, i);
        }
        if m.name in applied {
          if applied[m.name] != m.checksum {
            return Report(ran, false);
          }
        } else if m.seed && !seeds {
        } else {
          RunFile(m, outcomes[i]);
          if outcomes[i] != Committed {
            return Report(ran, false);
          }
          ran := ran + [m.name];
        }
        i := i + 1;
      }
      assert files[..i] == files;
      return Report(ran, true);
    }

    method ListPending(files: seq<Migration>, seeds: bool) returns (pending: seq<Name>)
      ensures pending == Pending(files, ledger, seeds)
    {
      pending := [];
      for i := 0 to |files|
        invariant pending == Pending(files[..i], ledger, seeds)
      {
        assert files[..i + 1][..i] == files[..i];
        if files[i].name !in ledger && !(files[i].seed && !seeds) {
          pending := pending + [files[i].name];
        }
      }
      assert files[..|files|] == files;
    }
  }

  // What a run does, file by file

  /** Strictly rising positions, and what stands at them. */
  predicate Rising(at: seq<nat>) {
    forall a, b :: 0 <= a < b < |at| ==> at[a] < at[b]
  }

  /** `names` are those of the files at `at`: in file order, all that satisfy `p` and no others. */
  predicate Picks(files: seq<Migration>, p: Migration -> bool, names: seq<Name>, at: seq<nat>) {
    && Rising(at) && |at| == |names|
    && (forall a :: 0 <= a < |at| ==> at[a] < |files| && p(files[at[a]]) && names[a] == files[at[a]].name)
    && forall i :: 0 <= i < |files| && p(files[i]) ==> i in at
  }

  lemma PicksLast(files: seq<Migration>, p: Migration -> bool, names: seq<Name>, at: seq<nat>)
    requires files != [] && Picks(files[..|files| - 1], p, names, at) && p(files[|files| - 1])
    ensures Picks(files, p, names + [files[|files| - 1].name], at + [|files| - 1])
  {
    var n := |files| - 1;
    var at' := at + [n];
    forall i | 0 <= i < |files| && p(files[i]) ensures i in at' {
      assert i < n ==> files[..n][i] == files[i];
      assert at'[|at|] == n;
    }
  }

  lemma PassesOverLast(files: seq<Migration>, p: Migration -> bool, names: seq<Name>, at: seq<nat>)
    requires files != [] && Picks(files[..|files| - 1], p, names, at) && !p(files[|files| - 1])
    ensures Picks(files, p, names, at)
  {
    var n := |files| - 1;
    forall i | 0 <= i < |files| && p(files[i]) ensures i in at {
      assert files[..n][i] == files[i];
    }
  }

  lemma {:induction false} NamesPicked(files: seq<Migration>, p: Migration -> bool) returns (at: seq<nat>)
    ensures Picks(files, p, NamesOf(files, p), at)
  {
    at := [];
    if files != [] {
      var n := |files| - 1;
      at := NamesPicked(files[..n], p);
      if p(files[n]) {
        PicksLast(files, p, NamesOf(files[..n], p), at);
        at := at + [n];
      } else {
        PassesOverLast(files, p, NamesOf(files[..n], p), at);
      }
    }
  }

  /** The file has never been applied and is wanted: seed data only where it is asked for. */
  predicate Wanted(ledger: map<Name, Checksum>, seeds: bool, m: Migration) {
    m.name !in ledger && (m.seed ==> seeds)
  }

  /** The file stops a run: it was applied and has been edited since, or its transaction failed. */
  predicate Stops(ledger: map<Name, Checksum>, seeds: bool, m: Migration, outcome: Outcome) {
    || (m.name in ledger && ledger[m.name] != m.checksum)
    || (Wanted(ledger, seeds, m) && outcome != Committed)
  }

  /** Pending lists exactly the wanted files, in their order. */
  lemma PendingPicks(files: seq<Migration>, ledger: map<Name, Checksum>, seeds: bool) returns (at: seq<nat>)
    ensures Picks(files, m => Wanted(ledger, seeds, m), Pending(files, ledger, seeds), at)
  {
    at := NamesPicked(files, DueFor(ledger, seeds));
  }

  /** A transaction whose file the database keeps. */
  predicate Kept(ledger: map<Name, Checksum>, seeds: bool, m: Migration, outcome: Outcome) {
    Wanted(ledger, seeds, m) && outcome != RolledBack
  }

  lemma {:induction false} LedgerAfterFiles(s: State, files: seq<Migration>, seeds: bool, outcomes: seq<Outcome>,
                                            n: nat)
    requires n <= |files| == |outcomes| && NamesDistinct(files)
    ensures var s' := AfterFiles(s, files, seeds, outcomes, n);
      && (forall name :: name in s.ledger ==> name in s'.ledger && s'.ledger[name] == s.ledger[name])
      && (forall i :: 0 <= i < n && Kept(s.ledger, seeds, files[i], outcomes[i]) ==>
            files[i].name in s'.ledger && s'.ledger[files[i].name] == files[i].checksum)
      && (forall name :: name in s'.ledger ==>
            name in s.ledger
            || exists i :: 0 <= i < n && Kept(s.ledger, seeds, files[i], outcomes[i]) && files[i].name == name)
  {
    if n > 0 {
      LedgerAfterFiles(s, files, seeds, outcomes, n - 1);
    }
  }

  /** A run gets to the first file that stops it, and succeeds if and only if there is none. */
  lemma StopIsFirst(s: State, files: seq<Migration>, seeds: bool, outcomes: seq<Outcome>)
    requires |outcomes| == |files|
    ensures var stop := StopsAt(s, files, seeds, outcomes, 0);
      && (stop == |files| <==> forall i :: 0 <= i < |files| ==> !Stops(s.ledger, seeds, files[i], outcomes[i]))
      && (stop < |files| ==> Stops(s.ledger, seeds, files[stop], outcomes[stop]))
      && (forall i :: 0 <= i < stop ==> !Stops(s.ledger, seeds, files[i], outcomes[i]))
  {
    assert forall i :: 0 <= i < |files| ==>
        (Stops(s.ledger, seeds, files[i], outcomes[i]) <==> !Passes(files[i], s.ledger, seeds, outcomes[i]));
  }

  /** What it leaves in the ledger: what was there, and every wanted file up to the stop whose
    transaction took effect, with its checksum. */
  lemma LedgerOfRun(s: State, files: seq<Migration>, seeds: bool, outcomes: seq<Outcome>)
    requires |outcomes| == |files| && NamesDistinct(files)
    ensures var stop, ledger := StopsAt(s, files, seeds, outcomes, 0), Applied(s, files, seeds, outcomes).ledger;
      && (forall name :: name in s.ledger ==> name in ledger && ledger[name] == s.ledger[name])
      && (forall i :: 0 <= i < |files| && i <= stop && Kept(s.ledger, seeds, files[i], outcomes[i]) ==>
            files[i].name in ledger && ledger[files[i].name] == files[i].checksum)
      && (forall name :: name in ledger ==>
            name in s.ledger
            || exists i :: 0 <= i < |files| && i <= stop && Kept(s.ledger, seeds, files[i], outcomes[i])
                           && files[i].name == name)
  {
    var stop := StopsAt(s, files, seeds, outcomes, 0);
    LedgerAfterFiles(s, files, seeds, outcomes, if stop < |files| then stop + 1 else stop);
  }

  /** And what takes effect, in order: the wanted files before the stop, and the one it stopped at if
    only the answer was lost. */
  lemma EffectsOfRun(s: State, files: seq<Migration>, seeds: bool, outcomes: seq<Outcome>)
    requires |outcomes| == |files|
    ensures var stop := StopsAt(s, files, seeds, outcomes, 0);
      Applied(s, files, seeds, outcomes).effects
      == s.effects + Pending(files[..stop], s.ledger, seeds)
         + if stop < |files| && Wanted(s.ledger, seeds, files[stop]) && outcomes[stop] == AckLost
           then [files[stop].name] else []
  {
    var stop := StopsAt(s, files, seeds, outcomes, 0);
    EffectsAreDue(s, files, seeds, outcomes, stop);
  }

  // Apply against Pending

  lemma {:induction false} EffectsAreDue(s: State, files: seq<Migration>, seeds: bool, outcomes: seq<Outcome>, n: nat)
    requires n <= |files| == |outcomes|
    requires forall j :: 0 <= j < n && Due(files[j], s.ledger, seeds) ==> outcomes[j] != RolledBack
    ensures AfterFiles(s, files, seeds, outcomes, n).effects == s.effects + Pending(files[..n], s.ledger, seeds)
  {
    if n > 0 {
      EffectsAreDue(s, files, seeds, outcomes, n - 1);
      assert files[..n][..n - 1] == files[..n - 1];
    } else {
      assert files[..0] == [];
    }
  }

  /** When no transaction fails, Apply succeeds exactly if no applied file has been edited, and
    then runs precisely what Pending listed, in that order. */
  lemma {:induction false} ApplyRunsWhatIsPending(s: State, files: seq<Migration>, seeds: bool, outcomes: seq<Outcome>)
    requires |outcomes| == |files| && forall i :: 0 <= i < |files| ==> outcomes[i] == Committed
    ensures StopsAt(s, files, seeds, outcomes, 0) == |files| <==>
      forall i :: 0 <= i < |files| ==> !Tampered(files[i], s.ledger)
    ensures StopsAt(s, files, seeds, outcomes, 0) == |files| ==>
      Applied(s, files, seeds, outcomes).effects == s.effects + Pending(files, s.ledger, seeds)
  {
    EffectsAreDue(s, files, seeds, outcomes, |files|);
    assert files[..|files|] == files;
  }

  // Interrupted runs

  /** Runs over a fixed file set: `runs[k]` says how each file's transaction ends in run k. */
  function AfterRuns(s: State, files: seq<Migration>, seeds: bool, runs: seq<seq<Outcome>>): State
    requires forall k :: 0 <= k < |runs| ==> |runs[k]| == |files|
  {
    if runs == [] then s
    else
      var n := |runs| - 1;
      Applied(AfterRuns(s, files, seeds, runs[..n]), files, seeds, runs[n])
  }

  const FRESH := State(map[], [])

  /** The ledger records exactly the eligible files before `k`, and exactly those took effect, in order. */
  ghost predicate DoneUpTo(s: State, files: seq<Migration>, seeds: bool, k: nat)
    requires k <= |files|
  {
    && s.effects == NamesOf(files[..k], EligibleFor(seeds))
    && (forall i :: 0 <= i < |files| ==> (files[i].name in s.ledger <==> i < k && Eligible(files[i], seeds)))
    && (forall i :: 0 <= i < k && Eligible(files[i], seeds) ==> s.ledger[files[i].name] == files[i].checksum)
  }

  lemma NextFileDone(s: State, files: seq<Migration>, seeds: bool, k: nat)
    requires NamesDistinct(files) && k < |files| && DoneUpTo(s, files, seeds, k)
    ensures DoneUpTo(if Eligible(files[k], seeds) then Commit(s, files[k]) else s, files, seeds, k + 1)
  {
    assert files[..k + 1][..k] == files[..k];
  }

  /** Files already done are passed over unchanged. */
  lemma {:induction false} SkipsDone(s: State, files: seq<Migration>, seeds: bool, outcomes: seq<Outcome>, k: nat,
                                     n: nat)
    requires NamesDistinct(files) && n <= k <= |files| == |outcomes| && DoneUpTo(s, files, seeds, k)
    ensures AfterFiles(s, files, seeds, outcomes, n) == s
  {
    if n > 0 {
      SkipsDone(s, files, seeds, outcomes, k, n - 1);
    }
  }

  /** From the first file not done, a run extends what is done by one file at a time. */
  lemma {:induction false} ExtendsDone(s: State, files: seq<Migration>, seeds: bool, outcomes: seq<Outcome>, k: nat,
                                       n: nat)
    requires NamesDistinct(files) && k <= n <= |files| == |outcomes| && DoneUpTo(s, files, seeds, k)
    requires forall j :: k <= j < n && Eligible(files[j], seeds) ==> outcomes[j] != RolledBack
    ensures DoneUpTo(AfterFiles(s, files, seeds, outcomes, n), files, seeds, n)
    decreases n
  {
    if n == k {
      SkipsDone(s, files, seeds, outcomes, k, n);
    } else {
      ExtendsDone(s, files, seeds, outcomes, k, n - 1);
      NextFileDone(AfterFiles(s, files, seeds, outcomes, n - 1), files, seeds, n - 1);
    }
  }

  lemma StopIsPastDone(s: State, files: seq<Migration>, seeds: bool, outcomes: seq<Outcome>, k: nat)
    requires NamesDistinct(files) && k <= |files| == |outcomes| && DoneUpTo(s, files, seeds, k)
    ensures k <= StopsAt(s, files, seeds, outcomes, 0)
    ensures var stop := StopsAt(s, files, seeds, outcomes, 0);
      stop < |files| ==> Eligible(files[stop], seeds) && outcomes[stop] != Committed
  {
  }

  /** One run, however it ends, leaves some longer prefix of the eligible files done; if it
    reports success, all of them. */
  lemma RunExtends(s: State, files: seq<Migration>, seeds: bool, outcomes: seq<Outcome>, k: nat) returns (k': nat)
    requires NamesDistinct(files) && k <= |files| == |outcomes| && DoneUpTo(s, files, seeds, k)
    ensures k <= k' <= |files| && DoneUpTo(Applied(s, files, seeds, outcomes), files, seeds, k')
    ensures StopsAt(s, files, seeds, outcomes, 0) == |files| ==> k' == |files|
  {
    var stop := StopsAt(s, files, seeds, outcomes, 0);
    StopIsPastDone(s, files, seeds, outcomes, k);
    ExtendsDone(s, files, seeds, outcomes, k, stop);
    k' := stop;
    if stop < |files| {
      LastFile(AfterFiles(s, files, seeds, outcomes, stop), s.ledger, files, seeds, outcomes[stop], stop);
      if outcomes[stop] == AckLost {
        k' := stop + 1;
      }
    }
  }

  /** The file a run stops at: rolled back it is as if never begun, otherwise it is done. */
  lemma LastFile(s: State, ledger: map<Name, Checksum>, files: seq<Migration>, seeds: bool, outcome: Outcome, k: nat)
    requires NamesDistinct(files) && k < |files| && DoneUpTo(s, files, seeds, k)
    requires Due(files[k], ledger, seeds) && Eligible(files[k], seeds)
    ensures outcome == RolledBack ==> AfterFile(s, files[k], ledger, seeds, outcome) == s
    ensures outcome != RolledBack ==> DoneUpTo(AfterFile(s, files[k], ledger, seeds, outcome), files, seeds, k + 1)
  {
    NextFileDone(s, files, seeds, k);
  }

  lemma {:induction false} RunsExtend(files: seq<Migration>, seeds: bool, runs: seq<seq<Outcome>>) returns (k: nat)
    requires NamesDistinct(files) && forall r :: 0 <= r < |runs| ==> |runs[r]| == |files|
    ensures k <= |files| && DoneUpTo(AfterRuns(FRESH, files, seeds, runs), files, seeds, k)
  {
    if runs == [] {
      k := 0;
      assert files[..0] == [];
    } else {
      var n := |runs| - 1;
      k := RunsExtend(files, seeds, runs[..n]);
      k := RunExtends(AfterRuns(FRESH, files, seeds, runs[..n]), files, seeds, runs[n], k);
    }
  }

  /** Any series of interrupted runs followed by one that succeeds has applied every eligible
    file exactly once, in file order. */
  lemma ResumesExactly(files: seq<Migration>, seeds: bool, runs: seq<seq<Outcome>>, last: seq<Outcome>)
    requires NamesDistinct(files) && |last| == |files| && forall r :: 0 <= r < |runs| ==> |runs[r]| == |files|
    requires StopsAt(AfterRuns(FRESH, files, seeds, runs), files, seeds, last, 0) == |files|
    ensures Applied(AfterRuns(FRESH, files, seeds, runs), files, seeds, last).effects
      == NamesOf(files, EligibleFor(seeds))
  {
    var k := RunsExtend(files, seeds, runs);
    k := RunExtends(AfterRuns(FRESH, files, seeds, runs), files, seeds, last, k);
    assert files[..|files|] == files;
  }
}
