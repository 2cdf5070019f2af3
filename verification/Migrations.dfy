/** The migration runner against a database whose every call may fail, with or without effect. */
module MigrationSpec {
  datatype Migration = Migration(version: int, name: string, sql: string)

  datatype Applied = Applied(version: int, name: string)

  datatype Sql = CreateVersionTable | ListVersions | Migrate(m: Migration) | Record(m: Migration)

  // A failed call may still have had its effect, for example when only the reply was lost.
  datatype Outcome = Done | FailedWithEffect | FailedWithoutEffect

  datatype Call = Call(sql: Sql, outcome: Outcome)

  // The rows of schema_version, and every call sent so far.
  datatype Db = Db(recorded: seq<Applied>, log: seq<Call>)

  // The outcome of the n-th call ever sent.
  type Oracle = nat -> Outcome

  datatype Result = Result(db: Db, ok: bool)

  const NEW_DB := Db([], [])

  function Executed(db: Db, sql: Sql, oracle: Oracle): Result {
    var outcome := oracle(|db.log|);
    var recorded := if sql.Record? && !outcome.FailedWithoutEffect?
                    then db.recorded + [Applied(sql.m.version, sql.m.name)] else db.recorded;
    Result(Db(recorded, db.log + [Call(sql, outcome)]), outcome.Done?)
  }

  function Versions(recorded: seq<Applied>): set<int> {
    set a | a in recorded :: a.version
  }

  function VersionsOf(ms: seq<Migration>): set<int> {
    set m | m in ms :: m.version
  }

  function AppliedFrom(db: Db, ms: seq<Migration>, i: nat, applied: set<int>, oracle: Oracle): Result
    requires i <= |ms|
    decreases |ms| - i
  {
    if i == |ms| then Result(db, true)
    else if ms[i].version in applied then AppliedFrom(db, ms, i + 1, applied, oracle)
    else
      var migrated := Executed(db, Migrate(ms[i]), oracle);
      if !migrated.ok then migrated
      else
        var recorded := Executed(migrated.db, Record(ms[i]), oracle);
        if !recorded.ok then recorded
        else AppliedFrom(recorded.db, ms, i + 1, applied, oracle)
  }

  // Listing what is applied: when its own table creation fails it reports nothing as applied.
  function Listed(db: Db, oracle: Oracle): (Result, set<int>) {
    var created := Executed(db, CreateVersionTable, oracle);
    if !created.ok then (Result(created.db, true), {})
    else
      var listed := Executed(created.db, ListVersions, oracle);
      (listed, Versions(listed.db.recorded))
  }

  function Ran(db: Db, ms: seq<Migration>, oracle: Oracle): Result {
    var created := Executed(db, CreateVersionTable, oracle);
    if !created.ok then created
    else
      var (listed, applied) := Listed(created.db, oracle);
      if !listed.ok then listed else AppliedFrom(listed.db, ms, 0, applied, oracle)
  }

  function RanTimes(ms: seq<Migration>, runs: nat, oracle: Oracle): Db {
    if runs == 0 then NEW_DB else Ran(RanTimes(ms, runs - 1, oracle), ms, oracle).db
  }
}

/** Running the migrations. */
module Migrations {
  import opened MigrationSpec

  class QuestDbMigrator {
    var recorded: seq<Applied>
    var log: seq<Call>
    const oracle: Oracle

    constructor (oracle: Oracle)
      ensures State() == NEW_DB && this.oracle == oracle
    {
      recorded, log := [], [];
      this.oracle := oracle;
    }

    ghost function State(): Db
      reads this
    {
      Db(recorded, log)
    }

    method ExecuteSql(sql: Sql) returns (ok: bool)
      modifies this
      ensures Result(State(), ok) == Executed(old(State()), sql, oracle)
    {
      var outcome := oracle(|log|);
      log := log + [Call(sql, outcome)];
      if sql.Record? && outcome != FailedWithoutEffect {
        recorded := recorded + [Applied(sql.m.version, sql.m.name)];
      }
      ok := outcome == Done;
    }

    method ListApplied() returns (ok: bool, applied: seq<Applied>)
      modifies this
      ensures (Result(State(), ok), Versions(applied)) == Listed(old(State()), oracle)
    {
      ok := ExecuteSql(CreateVersionTable);
      if !ok {
        applied := [];
        assert Versions(applied) == {};
        return true, applied;
      }
      ok := ExecuteSql(ListVersions);
      applied := recorded;
    }

    method RunMigrations(ms: seq<Migration>) returns (ok: bool)
      modifies this
      ensures Result(State(), ok) == Ran(old(State()), ms, oracle)
    {
      ok := ExecuteSql(CreateVersionTable);
      if !ok {
        return;
      }
      var applied;
      ok, applied := ListApplied();
      if !ok {
        return;
      }
      for i := 0 to |ms|
        invariant ok
        invariant AppliedFrom(State(), ms, i, Versions(applied), oracle) == Ran(old(State()), ms, oracle)
      {
        if exists a :: a in applied && a.version == ms[i].version {
          continue;
        }
        ok := ExecuteSql(Migrate(ms[i]));
        if !ok {
          return;
        }
        ok := ExecuteSql(Record(ms[i]));
        if !ok {
          return;
        }
      }
    }
  }
}

/** What every sequence of runs keeps, whatever fails. */
module MigrationRuns {
  import opened MigrationSpec

  // The versions whose recording took effect, read off the calls alone.
  function RecordedIn(log: seq<Call>): set<int> {
    set c | c in log && c.sql.Record? && !c.outcome.FailedWithoutEffect? :: c.sql.m.version
  }

  ghost predicate PrefixRecorded(db: Db, ms: seq<Migration>) {
    exists k :: 0 <= k <= |ms| && Versions(db.recorded) == VersionsOf(ms[..k])
  }

  // A migration's SQL is sent only once all earlier migrations are recorded.
  ghost predicate SentAt(log: seq<Call>, t: nat, ms: seq<Migration>, i: nat)
    requires t < |log| && i < |ms|
  {
    log[t].sql == Migrate(ms[i]) && VersionsOf(ms[..i]) <= RecordedIn(log[..t])
  }

  ghost predicate SentInOrder(log: seq<Call>, ms: seq<Migration>) {
    forall t :: 0 <= t < |log| && log[t].sql.Migrate? ==> exists i :: 0 <= i < |ms| && SentAt(log, t, ms, i)
  }

  // A migration is recorded only right after its own SQL succeeded.
  ghost predicate RecordedAfterSuccess(log: seq<Call>) {
    forall t :: 0 <= t < |log| && log[t].sql.Record? ==> t > 0 && log[t - 1] == Call(Migrate(log[t].sql.m), Done)
  }

  ghost predicate Inv(db: Db, ms: seq<Migration>) {
    && PrefixRecorded(db, ms)
    && Versions(db.recorded) == RecordedIn(db.log)
    && SentInOrder(db.log, ms)
    && RecordedAfterSuccess(db.log)
  }

  lemma {:induction false} RecordedInSnoc(log: seq<Call>, c: Call)
    ensures RecordedIn(log + [c])
         == RecordedIn(log) + if c.sql.Record? && !c.outcome.FailedWithoutEffect? then {c.sql.m.version} else {}
  {
    assert forall x :: x in log + [c] <==> x in log || x == c;
  }

  lemma {:induction false} VersionsSnoc(recorded: seq<Applied>, a: Applied)
    ensures Versions(recorded + [a]) == Versions(recorded) + {a.version}
  {
    assert forall x :: x in recorded + [a] <==> x in recorded || x == a;
  }

  lemma {:induction false} VersionsOfSnoc(ms: seq<Migration>, i: nat)
    requires i < |ms|
    ensures VersionsOf(ms[..i + 1]) == VersionsOf(ms[..i]) + {ms[i].version}
  {
    assert ms[..i + 1] == ms[..i] + [ms[i]];
    assert forall x :: x in ms[..i + 1] <==> x in ms[..i] || x == ms[i];
  }

  lemma {:induction false} SentInOrderSnoc(log: seq<Call>, c: Call, ms: seq<Migration>)
    requires SentInOrder(log, ms)
    requires c.sql.Migrate? ==>
      exists i :: 0 <= i < |ms| && c.sql == Migrate(ms[i]) && VersionsOf(ms[..i]) <= RecordedIn(log)
    ensures SentInOrder(log + [c], ms)
  {
    var log' := log + [c];
    forall t | 0 <= t < |log'| && log'[t].sql.Migrate? ensures exists i :: 0 <= i < |ms| && SentAt(log', t, ms, i) {
      if t < |log| {
        assert log'[..t] == log[..t];
        var i :| 0 <= i < |ms| && SentAt(log, t, ms, i);
        assert SentAt(log', t, ms, i);
      } else {
        assert log'[..t] == log;
        var i :| 0 <= i < |ms| && c.sql == Migrate(ms[i]) && VersionsOf(ms[..i]) <= RecordedIn(log);
        assert SentAt(log', t, ms, i);
      }
    }
  }

  // A call that is neither a migration nor a recording keeps the invariant.
  lemma {:induction false} HousekeepingKeepsInv(db: Db, sql: Sql, ms: seq<Migration>, oracle: Oracle)
    requires Inv(db, ms) && (sql.CreateVersionTable? || sql.ListVersions?)
    ensures Inv(Executed(db, sql, oracle).db, ms)
    ensures Executed(db, sql, oracle).db.recorded == db.recorded
  {
    var c := Call(sql, oracle(|db.log|));
    RecordedInSnoc(db.log, c);
    SentInOrderSnoc(db.log, c, ms);
  }

  lemma {:induction false} MigrateKeepsInv(db: Db, ms: seq<Migration>, i: nat, oracle: Oracle)
    requires i < |ms| && Inv(db, ms) && VersionsOf(ms[..i]) <= Versions(db.recorded)
    ensures Inv(Executed(db, Migrate(ms[i]), oracle).db, ms)
  {
    var c := Call(Migrate(ms[i]), oracle(|db.log|));
    RecordedInSnoc(db.log, c);
    SentInOrderSnoc(db.log, c, ms);
  }

  lemma {:induction false} RecordKeepsInv(db: Db, ms: seq<Migration>, i: nat, oracle: Oracle)
    requires i < |ms| && Inv(db, ms) && VersionsOf(ms[..i]) <= Versions(db.recorded)
    requires db.log != [] && db.log[|db.log| - 1] == Call(Migrate(ms[i]), Done)
    ensures var r := Executed(db, Record(ms[i]), oracle);
      Inv(r.db, ms) && (r.ok ==> VersionsOf(ms[..i + 1]) <= Versions(r.db.recorded))
  {
    var c := Call(Record(ms[i]), oracle(|db.log|));
    RecordedInSnoc(db.log, c);
    SentInOrderSnoc(db.log, c, ms);
    VersionsSnoc(db.recorded, Applied(ms[i].version, ms[i].name));
    VersionsOfSnoc(ms, i);
    PrefixGrows(db, ms, i);
    AfterSuccessSnoc(db.log, c);
  }

  lemma {:induction false} AfterSuccessSnoc(log: seq<Call>, c: Call)
    requires RecordedAfterSuccess(log)
    requires c.sql.Record? ==> log != [] && log[|log| - 1] == Call(Migrate(c.sql.m), Done)
    ensures RecordedAfterSuccess(log + [c])
  {
  }

  // Recording migration i when all earlier ones are recorded leaves a prefix recorded.
  lemma {:induction false} PrefixGrows(db: Db, ms: seq<Migration>, i: nat)
    requires i < |ms| && PrefixRecorded(db, ms) && VersionsOf(ms[..i]) <= Versions(db.recorded)
    ensures exists k :: 0 <= k <= |ms| && Versions(db.recorded) + {ms[i].version} == VersionsOf(ms[..k])
  {
    var k :| 0 <= k <= |ms| && Versions(db.recorded) == VersionsOf(ms[..k]);
    VersionsOfSnoc(ms, i);
    if k > i {
      assert ms[..k][i] == ms[i] && ms[i] in ms[..k];
      assert Versions(db.recorded) + {ms[i].version} == VersionsOf(ms[..k]);
    } else {
      assert forall m :: m in ms[..k] ==> m in ms[..i];
      assert Versions(db.recorded) + {ms[i].version} == VersionsOf(ms[..i + 1]);
    }
  }

  lemma {:induction false} AppliedFromKeepsInv(db: Db, ms: seq<Migration>, i: nat, applied: set<int>, oracle: Oracle)
    requires i <= |ms| && Inv(db, ms)
    requires VersionsOf(ms[..i]) <= Versions(db.recorded) && applied <= Versions(db.recorded)
    ensures var r := AppliedFrom(db, ms, i, applied, oracle);
      Inv(r.db, ms) && (r.ok ==> VersionsOf(ms) <= Versions(r.db.recorded))
    decreases |ms| - i
  {
    if i == |ms| {
      assert ms[..i] == ms;
    } else if ms[i].version in applied {
      VersionsOfSnoc(ms, i);
      AppliedFromKeepsInv(db, ms, i + 1, applied, oracle);
    } else {
      MigrateKeepsInv(db, ms, i, oracle);
      var migrated := Executed(db, Migrate(ms[i]), oracle);
      if migrated.ok {
        RecordKeepsInv(migrated.db, ms, i, oracle);
        var recorded := Executed(migrated.db, Record(ms[i]), oracle);
        VersionsSnoc(db.recorded, Applied(ms[i].version, ms[i].name));
        if recorded.ok { AppliedFromKeepsInv(recorded.db, ms, i + 1, applied, oracle); }
      }
    }
  }

  // One run keeps the invariant, and a run that reports success has everything recorded.
  lemma {:induction false} RunKeepsInv(db: Db, ms: seq<Migration>, oracle: Oracle)
    requires Inv(db, ms)
    ensures Inv(Ran(db, ms, oracle).db, ms)
    ensures Ran(db, ms, oracle).ok ==> VersionsOf(ms) <= Versions(Ran(db, ms, oracle).db.recorded)
  {
    HousekeepingKeepsInv(db, CreateVersionTable, ms, oracle);
    var created := Executed(db, CreateVersionTable, oracle);
    if created.ok {
      HousekeepingKeepsInv(created.db, CreateVersionTable, ms, oracle);
      var again := Executed(created.db, CreateVersionTable, oracle);
      if again.ok { HousekeepingKeepsInv(again.db, ListVersions, ms, oracle); }
      var (listed, applied) := Listed(created.db, oracle);
      assert ms[..0] == [];
      if listed.ok { AppliedFromKeepsInv(listed.db, ms, 0, applied, oracle); }
    }
  }

  // After any number of runs with any failures: a prefix is recorded, and in order.
  lemma {:induction false} AnyRunsKeepInv(ms: seq<Migration>, runs: nat, oracle: Oracle)
    ensures Inv(RanTimes(ms, runs, oracle), ms)
  {
    if runs == 0 {
      assert Versions(NEW_DB.recorded) == VersionsOf(ms[..0]);
    } else {
      AnyRunsKeepInv(ms, runs - 1, oracle);
      RunKeepsInv(RanTimes(ms, runs - 1, oracle), ms, oracle);
    }
  }

  // ----- runs after everything is recorded -----

  function MigrationsSent(log: seq<Call>): nat {
    if log == [] then 0
    else MigrationsSent(log[..|log| - 1]) + if log[|log| - 1].sql.Migrate? then 1 else 0
  }

  lemma {:induction false} AllAppliedSendsNothing(db: Db, ms: seq<Migration>, i: nat, applied: set<int>, oracle: Oracle)
    requires i <= |ms| && VersionsOf(ms) <= applied
    ensures AppliedFrom(db, ms, i, applied, oracle) == Result(db, true)
    decreases |ms| - i
  {
    if i < |ms| {
      assert ms[i] in ms;
      AllAppliedSendsNothing(db, ms, i + 1, applied, oracle);
    }
  }

  lemma {:induction false} SentSnoc(log: seq<Call>, c: Call)
    ensures MigrationsSent(log + [c]) == MigrationsSent(log) + if c.sql.Migrate? then 1 else 0
  {
    assert (log + [c])[..|log|] == log;
  }

  lemma {:induction false} SentOnlyGrows(db: Db, ms: seq<Migration>, i: nat, applied: set<int>, oracle: Oracle)
    requires i <= |ms|
    ensures MigrationsSent(AppliedFrom(db, ms, i, applied, oracle).db.log)
         >= MigrationsSent(db.log) + if i < |ms| && ms[i].version !in applied then 1 else 0
    decreases |ms| - i
  {
    if i < |ms| {
      if ms[i].version in applied {
        SentOnlyGrows(db, ms, i + 1, applied, oracle);
      } else {
        var migrated := Executed(db, Migrate(ms[i]), oracle);
        SentSnoc(db.log, Call(Migrate(ms[i]), oracle(|db.log|)));
        var recorded := Executed(migrated.db, Record(ms[i]), oracle);
        SentSnoc(migrated.db.log, Call(Record(ms[i]), oracle(|migrated.db.log|)));
        if migrated.ok && recorded.ok { SentOnlyGrows(recorded.db, ms, i + 1, applied, oracle); }
      }
    }
  }

  // Once all is recorded, a further run sends migration SQL again exactly when the first table
  // creation succeeds and the one made while listing fails, for that failure reads as "none applied".
  lemma {:induction false} RerunSendsExactlyWhen(db: Db, ms: seq<Migration>, oracle: Oracle)
    requires VersionsOf(ms) <= Versions(db.recorded)
    ensures MigrationsSent(Ran(db, ms, oracle).db.log) > MigrationsSent(db.log)
       <==> ms != [] && oracle(|db.log|).Done? && !oracle(|db.log| + 1).Done?
  {
    var created := Executed(db, CreateVersionTable, oracle);
    SentSnoc(db.log, Call(CreateVersionTable, oracle(|db.log|)));
    if created.ok {
      var again := Executed(created.db, CreateVersionTable, oracle);
      SentSnoc(created.db.log, Call(CreateVersionTable, oracle(|created.db.log|)));
      if again.ok {
        var listed := Executed(again.db, ListVersions, oracle);
        SentSnoc(again.db.log, Call(ListVersions, oracle(|again.db.log|)));
        AllAppliedSendsNothing(listed.db, ms, 0, Versions(listed.db.recorded), oracle);
      } else {
        SentOnlyGrows(again.db, ms, 0, {}, oracle);
      }
    }
  }

  lemma {:induction false} RecordedOnlyGrows(db: Db, ms: seq<Migration>, i: nat, applied: set<int>, oracle: Oracle)
    requires i <= |ms|
    ensures |AppliedFrom(db, ms, i, applied, oracle).db.recorded| >= |db.recorded|
    decreases |ms| - i
  {
    if i < |ms| {
      if ms[i].version in applied {
        RecordedOnlyGrows(db, ms, i + 1, applied, oracle);
      } else {
        var migrated := Executed(db, Migrate(ms[i]), oracle);
        var recorded := Executed(migrated.db, Record(ms[i]), oracle);
        if migrated.ok && recorded.ok { RecordedOnlyGrows(recorded.db, ms, i + 1, applied, oracle); }
      }
    }
  }

  // And such a run records a row again exactly when, besides, the first migration sent succeeds and
  // the call that records it takes effect.
  lemma {:induction false} RerunRecordsExactlyWhen(db: Db, ms: seq<Migration>, oracle: Oracle)
    requires VersionsOf(ms) <= Versions(db.recorded)
    ensures var n := |db.log|;
      Ran(db, ms, oracle).db.recorded != db.recorded
      <==> ms != [] && oracle(n).Done? && !oracle(n + 1).Done? && oracle(n + 2).Done?
           && !oracle(n + 3).FailedWithoutEffect?
  {
    var created := Executed(db, CreateVersionTable, oracle);
    if created.ok {
      var again := Executed(created.db, CreateVersionTable, oracle);
      if again.ok {
        var listed := Executed(again.db, ListVersions, oracle);
        AllAppliedSendsNothing(listed.db, ms, 0, Versions(listed.db.recorded), oracle);
      } else if ms != [] {
        var migrated := Executed(again.db, Migrate(ms[0]), oracle);
        var recorded := Executed(migrated.db, Record(ms[0]), oracle);
        if migrated.ok && recorded.ok { RecordedOnlyGrows(recorded.db, ms, 1, {}, oracle); }
      }
    }
  }

  // Every migration call in the part of `log` after the first `from` calls is for none of `versions`.
  ghost predicate SendsNoneOf(log: seq<Call>, from: nat, versions: set<int>) {
    forall t :: from <= t < |log| && log[t].sql.Migrate? ==> log[t].sql.m.version !in versions
  }

  lemma {:induction false} FromSendsOnlyMissing(db: Db, ms: seq<Migration>, i: nat, applied: set<int>, oracle: Oracle,
                                                from: nat)
    requires i <= |ms| && from <= |db.log| && SendsNoneOf(db.log, from, applied)
    ensures var log := AppliedFrom(db, ms, i, applied, oracle).db.log;
      from <= |log| && db.log[..from] == log[..from] && SendsNoneOf(log, from, applied)
    decreases |ms| - i
  {
    if i < |ms| {
      if ms[i].version in applied {
        FromSendsOnlyMissing(db, ms, i + 1, applied, oracle, from);
      } else {
        var migrated := Executed(db, Migrate(ms[i]), oracle);
        assert SendsNoneOf(migrated.db.log, from, applied);
        var recorded := Executed(migrated.db, Record(ms[i]), oracle);
        assert SendsNoneOf(recorded.db.log, from, applied);
        assert recorded.db.log[..from] == db.log[..from];
        if migrated.ok && recorded.ok { FromSendsOnlyMissing(recorded.db, ms, i + 1, applied, oracle, from); }
      }
    }
  }

  // As long as both table creations succeed, a run sends only migrations not yet recorded.
  lemma {:induction false} OnlyMissingAreSent(db: Db, ms: seq<Migration>, oracle: Oracle)
    requires oracle(|db.log|).Done? && oracle(|db.log| + 1).Done?
    ensures var log := Ran(db, ms, oracle).db.log;
      |db.log| <= |log| && db.log == log[..|db.log|] && SendsNoneOf(log, |db.log|, Versions(db.recorded))
  {
    var created := Executed(db, CreateVersionTable, oracle);
    var (listed, applied) := Listed(created.db, oracle);
    assert listed.db.log[..|db.log|] == db.log;
    if listed.ok { FromSendsOnlyMissing(listed.db, ms, 0, applied, oracle, |db.log|); }
  }

  // When no call fails the run succeeds, however earlier runs were cut short.
  lemma {:induction false} FaultFreeRunSucceeds(db: Db, ms: seq<Migration>, oracle: Oracle)
    requires forall n :: n >= |db.log| ==> oracle(n).Done?
    ensures Ran(db, ms, oracle).ok
  {
    var created := Executed(db, CreateVersionTable, oracle);
    var (listed, applied) := Listed(created.db, oracle);
    FaultFreeFrom(listed.db, ms, 0, applied, oracle);
  }

  lemma {:induction false} FaultFreeFrom(db: Db, ms: seq<Migration>, i: nat, applied: set<int>, oracle: Oracle)
    requires i <= |ms|
    requires forall n :: n >= |db.log| ==> oracle(n).Done?
    ensures AppliedFrom(db, ms, i, applied, oracle).ok
    decreases |ms| - i
  {
    if i < |ms| {
      if ms[i].version in applied {
        FaultFreeFrom(db, ms, i + 1, applied, oracle);
      } else {
        var migrated := Executed(db, Migrate(ms[i]), oracle);
        var recorded := Executed(migrated.db, Record(ms[i]), oracle);
        FaultFreeFrom(recorded.db, ms, i + 1, applied, oracle);
      }
    }
  }

  // ----- what the version table holds -----

  // Every row is the version and name of a migration of the list.
  ghost predicate RowsAreOf(recorded: seq<Applied>, ms: seq<Migration>) {
    forall a :: a in recorded ==> exists m :: m in ms && a.version == m.version && a.name == m.name
  }

  lemma {:induction false} RecordedRow(db: Db, ms: seq<Migration>, m: Migration, oracle: Oracle)
    requires RowsAreOf(db.recorded, ms) && m in ms
    ensures RowsAreOf(Executed(Executed(db, Migrate(m), oracle).db, Record(m), oracle).db.recorded, ms)
  {
    var row := Applied(m.version, m.name);
    assert forall a :: a in db.recorded + [row] ==> a in db.recorded || a == row;
  }

  lemma {:induction false} RowsFrom(db: Db, ms: seq<Migration>, i: nat, applied: set<int>, oracle: Oracle)
    requires i <= |ms| && RowsAreOf(db.recorded, ms)
    ensures RowsAreOf(AppliedFrom(db, ms, i, applied, oracle).db.recorded, ms)
    decreases |ms| - i
  {
    if i < |ms| {
      if ms[i].version in applied {
        RowsFrom(db, ms, i + 1, applied, oracle);
      } else {
        var migrated := Executed(db, Migrate(ms[i]), oracle);
        var recorded := Executed(migrated.db, Record(ms[i]), oracle);
        RecordedRow(db, ms, ms[i], oracle);
        if migrated.ok && recorded.ok { RowsFrom(recorded.db, ms, i + 1, applied, oracle); }
      }
    }
  }

  // After any number of runs with any failures, every recorded row carries the version and name of a
  // migration of the list.
  lemma {:induction false} RecordedRowsAreMigrations(ms: seq<Migration>, runs: nat, oracle: Oracle)
    ensures RowsAreOf(RanTimes(ms, runs, oracle).recorded, ms)
  {
    if runs > 0 {
      RecordedRowsAreMigrations(ms, runs - 1, oracle);
      var db := RanTimes(ms, runs - 1, oracle);
      var created := Executed(db, CreateVersionTable, oracle);
      if created.ok {
        var (listed, applied) := Listed(created.db, oracle);
        if listed.ok { RowsFrom(listed.db, ms, 0, applied, oracle); }
      }
    }
  }
}
