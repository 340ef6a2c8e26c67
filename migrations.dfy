/** Schema migrations at start-up (`runMigrations` in main.go): which SQL
    files of the migrations directory are applied, and in what order.

    The directory listing is an input; reading and executing each file is
    an oracle that says how that step ends.  The database side effect is
    the sequence of files whose SQL was executed. */
module Migrations {
  import opened Wrappers
  import opened GoText
  import opened StrConv

  // ---------------------------------------------------------------------
  // sort.Strings

  /** Each path is no greater than the next one. */
  predicate Sorted(s: seq<string>) {
    forall i :: 0 < i < |s| ==> LessEq(s[i - 1], s[i])
  }

  function Insert(x: string, s: seq<string>): seq<string>
    decreases |s|
  {
    if |s| == 0 then [x]
    else if LessEq(x, s[0]) then [x] + s
    else [s[0]] + Insert(x, s[1..])
  }

  /** sort.Strings: the paths in byte-wise lexicographic order. */
  function SortStrings(s: seq<string>): seq<string>
    decreases |s|
  {
    if |s| == 0 then [] else Insert(s[0], SortStrings(s[1..]))
  }

  lemma {:induction false} InsertMultiset(x: string, s: seq<string>)
    ensures multiset(Insert(x, s)) == multiset(s) + multiset{x}
    ensures |Insert(x, s)| == |s| + 1
    ensures Insert(x, s)[0] == x || (|s| > 0 && Insert(x, s)[0] == s[0])
    decreases |s|
  {
    if |s| > 0 && !LessEq(x, s[0]) {
      InsertMultiset(x, s[1..]);
      assert s == [s[0]] + s[1..];
    }
  }

  lemma {:induction false} InsertSorted(x: string, s: seq<string>)
    requires Sorted(s)
    ensures Sorted(Insert(x, s))
    decreases |s|
  {
    if |s| > 0 {
      if LessEq(x, s[0]) {
        var r := [x] + s;
        forall i | 1 < i < |r|
          ensures LessEq(r[i - 1], r[i])
        {
          assert r[i - 1] == s[i - 2] && r[i] == s[i - 1];
        }
      } else {
        var t := s[1..];
        assert Sorted(t) by {
          forall i | 0 < i < |t|
            ensures LessEq(t[i - 1], t[i])
          {
            assert t[i - 1] == s[i] && t[i] == s[i + 1];
          }
        }
        InsertSorted(x, t);
        InsertMultiset(x, t);
        LessEqTotal(x, s[0]);
        var rest := Insert(x, t);
        assert LessEq(s[0], rest[0]) by {
          if |t| > 0 && rest[0] == t[0] {
            assert t[0] == s[1];
          }
        }
        var r := [s[0]] + rest;
        forall i | 1 < i < |r|
          ensures LessEq(r[i - 1], r[i])
        {
          assert r[i - 1] == rest[i - 2] && r[i] == rest[i - 1];
        }
      }
    }
  }

  /** sort.Strings yields a sorted permutation of its input. */
  lemma {:induction false} SortStringsSorts(s: seq<string>)
    ensures Sorted(SortStrings(s))
    ensures multiset(SortStrings(s)) == multiset(s)
    decreases |s|
  {
    if |s| > 0 {
      SortStringsSorts(s[1..]);
      InsertSorted(s[0], SortStrings(s[1..]));
      InsertMultiset(s[0], SortStrings(s[1..]));
      assert s == [s[0]] + s[1..];
    }
  }

  // ---------------------------------------------------------------------
  // Choosing the files

  /** The version of a migration file: the decimal number before the first
      '_' of its base name, or None when there is no '_' or that prefix is
      not an integer. */
  function Version(file: string): (r: Option<int>)
    ensures '_' !in PathBase(file) ==> r.None?
  {
    var base := PathBase(file);
    var i := IndexOf(base, '_');
    if i < 0 then None else Atoi(base[..i])
  }

  /** A file is applied when it has a version above the current one.  The
      way a version is read off a path is a parameter: `runMigrations` uses
      `Version`, and the walk below is the same for any such reading. */
  predicate IsPending(file: string, current: int, version: string -> Option<int>) {
    version(file).Some? && version(file).value > current
  }

  /** The files chosen from a sorted list, in list order. */
  function Pending(sorted: seq<string>, current: int, version: string -> Option<int>): seq<string>
    decreases |sorted|
  {
    if |sorted| == 0 then []
    else
      var last := sorted[|sorted| - 1];
      Pending(sorted[..|sorted| - 1], current, version) + (if IsPending(last, current, version) then [last] else [])
  }

  /** The choice holds exactly the files of the list that have a version
      above the current one. */
  lemma {:induction false} PendingMembers(sorted: seq<string>, current: int, version: string -> Option<int>)
    ensures forall f :: f in Pending(sorted, current, version) <==> f in sorted && IsPending(f, current, version)
    decreases |sorted|
  {
    if |sorted| > 0 {
      var front := sorted[..|sorted| - 1];
      PendingMembers(front, current, version);
      assert sorted == front + [sorted[|sorted| - 1]];
    }
  }

  /** One more file of the list adds it to the choice when it is pending. */
  lemma PendingStep(sorted: seq<string>, current: int, version: string -> Option<int>, i: nat)
    requires i < |sorted|
    ensures Pending(sorted[..i + 1], current, version) ==
            Pending(sorted[..i], current, version) + (if IsPending(sorted[i], current, version) then [sorted[i]] else [])
  {
    assert sorted[..i + 1][..i] == sorted[..i];
  }

  /** Choosing from a shorter prefix of the list gives a prefix of the
      choice. */
  lemma {:induction false} PendingPrefix(sorted: seq<string>, current: int, version: string -> Option<int>, i: nat)
    requires i <= |sorted|
    ensures Pending(sorted[..i], current, version) <= Pending(sorted, current, version)
    decreases |sorted| - i
  {
    if i < |sorted| {
      PendingPrefix(sorted, current, version, i + 1);
      assert sorted[..i + 1][..i] == sorted[..i];
    } else {
      assert sorted[..i] == sorted;
    }
  }

  // ---------------------------------------------------------------------
  // Running them

  /** How reading and executing one file ends. */
  datatype StepOutcome = Executed | ReadFailed | ExecFailed

  /** How the set-up before the loop ends: with the current version (0 for
      an empty version table), or with one of its errors. */
  datatype Prelude =
    | Ready(current: int)
    | CreateTableFailed
    | GetVersionFailed
    | GlobFailed

  datatype MigrationError =
    | CreateTable
    | GetVersion
    | Glob
    | Read(file: string)
    | Execute(file: string)

  /** The files executed, in order, and the error the run ended with. */
  datatype Report = Report(applied: seq<string>, error: Option<MigrationError>)

  /** The position of the first file that does not execute, or |files|. */
  function FirstFailure(files: seq<string>, outcome: string -> StepOutcome): (r: nat)
    ensures r <= |files|
    ensures forall k :: 0 <= k < r ==> outcome(files[k]) == Executed
    ensures r < |files| ==> outcome(files[r]) != Executed
    decreases |files|
  {
    if |files| == 0 then 0
    else if outcome(files[0]) != Executed then 0
    else 1 + FirstFailure(files[1..], outcome)
  }

  function StepError(file: string, o: StepOutcome): MigrationError {
    if o == ReadFailed then Read(file) else Execute(file)
  }

  /** Executing the chosen files in order up to the first that fails. */
  function ExecuteInOrder(pending: seq<string>, outcome: string -> StepOutcome): Report {
    var k := FirstFailure(pending, outcome);
    Report(pending[..k], if k < |pending| then Some(StepError(pending[k], outcome(pending[k]))) else None)
  }

  /** What a run does: the pending files in sorted order up to the first
      that fails, and that failure. */
  function Migrate(prelude: Prelude, files: seq<string>, outcome: string -> StepOutcome): Report {
    match prelude
    case CreateTableFailed => Report([], Some(CreateTable))
    case GetVersionFailed => Report([], Some(GetVersion))
    case GlobFailed => Report([], Some(Glob))
    case Ready(current) => ExecuteInOrder(Pending(SortStrings(files), current, Version), outcome)
  }

  /** `runMigrations`: sort, then walk the list, skipping files without a
      usable or new enough version and stopping at the first failure. */
  method RunMigrations(prelude: Prelude, files: seq<string>, outcome: string -> StepOutcome)
    returns (applied: seq<string>, error: Option<MigrationError>)
    ensures Report(applied, error) == Migrate(prelude, files, outcome)
  {
    if prelude.CreateTableFailed? {
      return [], Some(CreateTable);
    }
    if prelude.GetVersionFailed? {
      return [], Some(GetVersion);
    }
    if prelude.GlobFailed? {
      return [], Some(Glob);
    }
    var sorted := SortStrings(files);
    applied, error := ApplyPending(sorted, prelude.current, Version, outcome);
  }

  /** The loop of `runMigrations` over the sorted paths: skip a file without
      a usable or new enough version, otherwise read and execute it, and
      stop at the first failure. */
  method ApplyPending(sorted: seq<string>, current: int, version: string -> Option<int>,
                      outcome: string -> StepOutcome)
    returns (applied: seq<string>, error: Option<MigrationError>)
    ensures Report(applied, error) == ExecuteInOrder(Pending(sorted, current, version), outcome)
  {
    ghost var p := Pending(sorted, current, version);
    applied := [];
    var i := 0;
    while i < |sorted|
      invariant 0 <= i <= |sorted|
      invariant applied == Pending(sorted[..i], current, version)
      invariant AllExecuted(applied, outcome)
      decreases |sorted| - i
    {
      var file := sorted[i];
      PendingStep(sorted, current, version, i);
      var v := version(file);
      if v.None? || v.value <= current {
        i := i + 1;
        continue;
      }
      var o := outcome(file);
      if o != Executed {
        PendingPrefix(sorted, current, version, i + 1);
        StopsAt(p, outcome, applied, file);
        return applied, Some(StepError(file, o));
      }
      assert (applied + [file])[..|applied|] == applied;
      applied := applied + [file];
      i := i + 1;
    }
    assert sorted[..|sorted|] == sorted;
    StopsAt(p, outcome, applied, "");
    error := None;
  }

  /** Every file of the list executed. */
  predicate AllExecuted(files: seq<string>, outcome: string -> StepOutcome)
    decreases |files|
  {
    |files| == 0 || (AllExecuted(files[..|files| - 1], outcome) && outcome(files[|files| - 1]) == Executed)
  }

  lemma {:induction false} AllExecutedAt(files: seq<string>, outcome: string -> StepOutcome)
    requires AllExecuted(files, outcome)
    ensures forall k :: 0 <= k < |files| ==> outcome(files[k]) == Executed
    decreases |files|
  {
    if |files| > 0 {
      var front := files[..|files| - 1];
      AllExecutedAt(front, outcome);
      assert forall k :: 0 <= k < |front| ==> files[k] == front[k];
    }
  }

  /** A run over `pending` whose executed part is `done` stops at the next
      file, or finishes when there is none. */
  lemma StopsAt(pending: seq<string>, outcome: string -> StepOutcome, done: seq<string>, next: string)
    requires AllExecuted(done, outcome)
    requires (done + [next] <= pending && outcome(next) != Executed) || done == pending
    ensures done + [next] <= pending && outcome(next) != Executed ==>
      ExecuteInOrder(pending, outcome) == Report(done, Some(StepError(next, outcome(next))))
    ensures done == pending ==> ExecuteInOrder(pending, outcome) == Report(done, None)
  {
    AllExecutedAt(done, outcome);
    if done + [next] <= pending && outcome(next) != Executed {
      assert pending[|done|] == (done + [next])[|done|];
      FirstFailureAt(pending, outcome, |done|);
      assert pending[..|done|] == done;
    } else {
      FirstFailureAt(pending, outcome, |pending|);
    }
  }

  /** The first failure is where the executed prefix ends. */
  lemma FirstFailureAt(files: seq<string>, outcome: string -> StepOutcome, k: nat)
    requires k <= |files|
    requires forall j :: 0 <= j < k ==> outcome(files[j]) == Executed
    requires k < |files| ==> outcome(files[k]) != Executed
    ensures FirstFailure(files, outcome) == k
  {
  }

  // ---------------------------------------------------------------------
  // What a run promises

  /** Every executed file has a version above the current one, the files
      are executed in sorted order, and each of them executed. */
  lemma AppliedAreNewerInOrder(current: int, files: seq<string>, outcome: string -> StepOutcome)
    ensures var r := Migrate(Ready(current), files, outcome);
      (forall k :: 0 <= k < |r.applied| ==> IsPending(r.applied[k], current, Version) && outcome(r.applied[k]) == Executed) &&
      r.applied <= Pending(SortStrings(files), current, Version)
  {
    var p := Pending(SortStrings(files), current, Version);
    var k := FirstFailure(p, outcome);
    PendingMembers(SortStrings(files), current, Version);
    forall j | 0 <= j < k
      ensures IsPending(p[..k][j], current, Version)
    {
      assert p[..k][j] == p[j] && p[j] in p;
    }
  }

  /** A run without error executes every pending file, and a run with an
      error names a pending file that did not execute right after the
      executed ones; the files after it are not attempted. */
  lemma FailureStops(current: int, files: seq<string>, outcome: string -> StepOutcome)
    ensures var r := Migrate(Ready(current), files, outcome);
      var p := Pending(SortStrings(files), current, Version);
      (r.error.None? <==> r.applied == p) &&
      (r.error.Some? ==>
         |r.applied| < |p| && outcome(p[|r.applied|]) != Executed &&
         (r.error.value == Read(p[|r.applied|]) || r.error.value == Execute(p[|r.applied|])))
  {
    var p := Pending(SortStrings(files), current, Version);
    var k := FirstFailure(p, outcome);
    assert |p[..k]| == k;
  }

  /** Set-up failures apply nothing. */
  lemma PreludeFailureAppliesNothing(prelude: Prelude, files: seq<string>, outcome: string -> StepOutcome)
    requires !prelude.Ready?
    ensures Migrate(prelude, files, outcome).applied == []
    ensures Migrate(prelude, files, outcome).error.Some?
  {
  }

  /** The version is the integer before the first '_' of the base name. */
  lemma VersionBeforeUnderscore(dir: string, prefix: string, rest: string)
    requires '/' !in prefix && '/' !in rest && '_' !in prefix
    ensures Version(dir + "/" + prefix + "_" + rest) == Atoi(prefix)
  {
    var name := prefix + "_" + rest;
    assert name[|prefix|] == '_';
    assert '/' !in name;
    BaseOfFileInDir(dir, name);
    assert dir + "/" + prefix + "_" + rest == dir + "/" + name;
    assert name[..|prefix|] == prefix;
    IndexOfAt(name, '_', |prefix|);
  }

  /** A base name without '_' carries no version, so the file is skipped. */
  lemma NoUnderscoreNoVersion(dir: string, name: string, current: int)
    requires name != "" && '/' !in name && '_' !in name
    ensures Version(dir + "/" + name) == None
    ensures !IsPending(dir + "/" + name, current, Version)
  {
    BaseOfFileInDir(dir, name);
  }

  /** "002_add_collab.sql" is version 2; "v2_x.sql" has no version. */
  lemma VersionPrefixes()
    ensures Atoi("002") == Some(2)
    ensures Atoi("v2") == None
  {
    assert DigitsValue("002") == 2 by {
      assert "002"[..2] == "00";
      assert "00"[..1] == "0";
      assert "0"[..0] == "";
    }
    assert !IsDigit("v2"[0]);
  }

  /** Ordering is by path text, not by number: "10_x.sql" sorts, and so
      runs, before "2_y.sql". */
  lemma LexicographicNotNumeric()
    ensures SortStrings(["2_y.sql", "10_x.sql"]) == ["10_x.sql", "2_y.sql"]
  {
    assert LessEq("10_x.sql", "2_y.sql");
    assert !LessEq("2_y.sql", "10_x.sql");
    assert SortStrings(["10_x.sql"]) == ["10_x.sql"];
    assert ["2_y.sql", "10_x.sql"][1..] == ["10_x.sql"];
  }

  /** The current version is read once: two new files with the same version
      are both executed when nothing fails. */
  lemma SameVersionBothApplied(current: int, a: string, b: string, outcome: string -> StepOutcome)
    requires !LessEq(b, a)
    requires IsPending(a, current, Version) && IsPending(b, current, Version)
    requires Version(a) == Version(b)
    requires outcome(a) == Executed && outcome(b) == Executed
    ensures Migrate(Ready(current), [b, a], outcome) == Report([a, b], None)
  {
    SortTwo(a, b);
    PendingTwo(a, b, current, Version);
    FirstFailureAt([a, b], outcome, 2);
    assert [a, b][..2] == [a, b];
  }

  lemma SortTwo(a: string, b: string)
    requires !LessEq(b, a)
    ensures SortStrings([b, a]) == [a, b]
  {
    assert [b, a][1..] == [a];
    assert SortStrings([a]) == Insert(a, []) == [a];
    assert SortStrings([b, a]) == Insert(b, [a]);
    assert [a][1..] == [];
    assert Insert(b, [a]) == [a] + Insert(b, []);
  }

  lemma PendingTwo(a: string, b: string, current: int, version: string -> Option<int>)
    requires IsPending(a, current, version) && IsPending(b, current, version)
    ensures Pending([a, b], current, version) == [a, b]
  {
    var sorted := [a, b];
    assert sorted[..1] == [a];
    assert sorted[..1][..0] == [];
    assert Pending(sorted[..1], current, version) == [a];
  }
}
