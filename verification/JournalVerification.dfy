/**
 Which committed tasks a resume demotes, and why (journal_resume.cpp): tasks in order of their ids, the rows of
 each in order of theirs, and one check per file however many rows share it.
 */
module JournalVerification {
  import opened Basics
  import opened JournalState
  import opened JournalResumes
  import opened Sorting

  datatype DemotedTask = DemotedTask(taskId: string, artifactId: Option<string>, reason: DemotionReason)

  type Memo = map<string, Option<DemotionReason>>

  datatype Checked = Checked(failure: Option<DemotedTask>, memo: Memo)

  datatype Verified = Verified(demoted: seq<DemotedTask>, memo: Memo)

  // ---- What is checked, in which order ----

  /** The listed rows of task `t`, until one fails. */
  function RowsChecked(h: Hash, completed: map<string, File>, rows: map<string, ArtifactRow>, listed: seq<string>, t: string, memo: Memo): Checked
    requires forall k :: 0 <= k < |listed| ==> listed[k] in rows
  {
    if listed == [] then Checked(None, memo)
    else
      var n := |listed| - 1;
      var before := RowsChecked(h, completed, rows, listed[..n], t, memo);
      if before.failure.Some? then before
      else
        var row := rows[listed[n]];
        var verdict := Verdict(h, completed, before.memo, row);
        Checked(if verdict.Some? then Some(DemotedTask(t, Some(listed[n]), verdict.value)) else None,
                Remember(h, completed, before.memo, row))
  }

  function RowsOf(db: Database, t: string): set<string> {
    set id | id in db.artifacts && db.artifacts[id].taskId == t
  }

  ghost function TaskChecked(h: Hash, completed: map<string, File>, db: Database, t: string, memo: Memo): Checked
    requires t in db.tasks
  {
    if db.tasks[t].output.None? then Checked(Some(DemotedTask(t, None, OutputDigestMissing)), memo)
    else
      ListedMembers(RowsOf(db, t), Listing(RowsOf(db, t)));
      RowsChecked(h, completed, db.artifacts, Listing(RowsOf(db, t)), t, memo)
  }

  ghost function TasksChecked(h: Hash, completed: map<string, File>, db: Database, listed: seq<string>): Verified
    requires forall k :: 0 <= k < |listed| ==> listed[k] in db.tasks
  {
    if listed == [] then Verified([], map[])
    else
      var n := |listed| - 1;
      var before := TasksChecked(h, completed, db, listed[..n]);
      var now := TaskChecked(h, completed, db, listed[n], before.memo);
      Verified(if now.failure.Some? then before.demoted + [now.failure.value] else before.demoted, now.memo)
  }

  /** What resume reports. */
  ghost function Report(h: Hash, completed: map<string, File>, db: Database): seq<DemotedTask> {
    ListedMembers(CommittedTasks(db), Listing(CommittedTasks(db)));
    TasksChecked(h, completed, db, Listing(CommittedTasks(db))).demoted
  }

  function TasksIn(demoted: seq<DemotedTask>): set<string> {
    set d | d in demoted :: d.taskId
  }

  /** The committed tasks that resume demotes, whatever the tables hold. */
  ghost function Failing(h: Hash, completed: map<string, File>, db: Database): set<string> {
    TasksIn(Report(h, completed, db))
  }

  lemma TasksInSnoc(demoted: seq<DemotedTask>, d: DemotedTask)
    ensures TasksIn(demoted + [d]) == TasksIn(demoted) + {d.taskId}
  {
    assert forall x :: x in demoted + [d] <==> x in demoted || x == d;
  }

  // ---- Listings ----

  lemma ListedMembers(s: set<string>, list: seq<string>)
    requires Lists(s, list)
    ensures forall x :: x in s <==> x in list
    ensures forall k :: 0 <= k < |list| ==> list[k] in s
  {
    assert forall x :: x in list <==> x in Members(list);
  }

  lemma OthersComeLater(s: set<string>, list: seq<string>, i: nat)
    requires Lists(s, list) && i < |list|
    ensures forall x :: x in s && StringOrder()(x, list[i]) ==> x in list[..i]
  {
    StringOrderIsLinear(s);
    hide StringOrder;
    assert list[i] in Members(list);
    forall x | x in s && StringOrder()(x, list[i]) ensures x in list[..i] {
      assert x in Members(list);
      var k :| 0 <= k < |list| && list[k] == x;
      if k < i { assert list[..i][k] == x; }
    }
  }

  lemma ListedOnce(s: set<string>, list: seq<string>, i: nat)
    requires Lists(s, list) && i < |list|
    ensures list[i] in s && list[i] !in Members(list[..i])
    ensures forall x :: x in Members(list[..i]) ==> StringOrder()(x, list[i])
    ensures forall x :: x in s && StringOrder()(x, list[i]) ==> x in list[..i]
  {
    OthersComeLater(s, list, i);
    StringOrderIsLinear(s);
    IncreasingDistinct(StringOrder(), list, s);
    assert list[i] in Members(list);
  }

  // ---- Checking the rows of one task ----

  /** A failure ends the checking. */
  lemma {:induction false} FailureStands(h: Hash, completed: map<string, File>, rows: map<string, ArtifactRow>, listed: seq<string>, t: string, memo: Memo, i: nat)
    requires forall k :: 0 <= k < |listed| ==> listed[k] in rows
    requires i <= |listed| && RowsChecked(h, completed, rows, listed[..i], t, memo).failure.Some?
    ensures RowsChecked(h, completed, rows, listed, t, memo) == RowsChecked(h, completed, rows, listed[..i], t, memo)
  {
    if i == |listed| {
      assert listed[..i] == listed;
    } else {
      var n := |listed| - 1;
      assert listed[..n][..i] == listed[..i];
      FailureStands(h, completed, rows, listed[..n], t, memo, i);
    }
  }

  /** The first `n` listed rows pass their own checks. */
  ghost predicate PassUpTo(h: Hash, completed: map<string, File>, rows: map<string, ArtifactRow>, listed: seq<string>, n: nat) {
    n <= |listed| && forall k :: 0 <= k < n ==> listed[k] in rows && CheckRow(h, completed, rows[listed[k]]).None?
  }

  /** Row `n` is the failure reported, and the first that fails a check of its own. */
  ghost predicate FirstToFail(h: Hash, completed: map<string, File>, rows: map<string, ArtifactRow>, listed: seq<string>, n: nat, d: DemotedTask) {
    && n < |listed| && d.artifactId == Some(listed[n])
    && PassUpTo(h, completed, rows, listed, n) && listed[n] in rows && CheckRow(h, completed, rows[listed[n]]) == Some(d.reason)
  }

  /** With a faithful memo the failure is the first row that fails a check of its own. */
  lemma {:induction false} RowsCheckedRight(h: Hash, completed: map<string, File>, db: Database, listed: seq<string>, t: string, memo: Memo) returns (n: nat)
    requires forall k :: 0 <= k < |listed| ==> listed[k] in db.artifacts
    requires RowsAgree(completed, db) && Faithful(h, completed, db, memo)
    ensures var c := RowsChecked(h, completed, db.artifacts, listed, t, memo);
            && Faithful(h, completed, db, c.memo)
            && (c.failure.None? ==> PassUpTo(h, completed, db.artifacts, listed, |listed|))
            && (c.failure.Some? ==> FirstToFail(h, completed, db.artifacts, listed, n, c.failure.value))
  {
    hide CheckRow, RowsAgree, Faithful, Verdict, Remember;
    n := 0;
    if listed != [] {
      var last := |listed| - 1;
      n := RowsCheckedRight(h, completed, db, listed[..last], t, memo);
      var before := RowsChecked(h, completed, db.artifacts, listed[..last], t, memo);
      if before.failure.None? {
        n := last;
        FaithfulAt(h, completed, db, before.memo, listed[last]);
        RememberIsFaithful(h, completed, db, before.memo, listed[last]);
      }
    }
  }

  lemma {:induction false} FailureIsListed(h: Hash, completed: map<string, File>, rows: map<string, ArtifactRow>, listed: seq<string>, t: string, memo: Memo)
    requires forall k :: 0 <= k < |listed| ==> listed[k] in rows
    ensures var c := RowsChecked(h, completed, rows, listed, t, memo);
            c.failure.Some? ==>
              c.failure.value.taskId == t && c.failure.value.artifactId.Some? && c.failure.value.artifactId.value in listed
  {
    if listed != [] { FailureIsListed(h, completed, rows, listed[..|listed| - 1], t, memo); }
  }

  lemma FaithfulAt(h: Hash, completed: map<string, File>, db: Database, memo: Memo, id: string)
    requires Faithful(h, completed, db, memo) && id in db.artifacts
    ensures Verdict(h, completed, memo, db.artifacts[id]) == CheckRow(h, completed, db.artifacts[id])
  {
  }

  lemma NothingRemembered(h: Hash, completed: map<string, File>, db: Database)
    ensures Faithful(h, completed, db, map[])
  {
  }

  // ---- Checking one task ----

  /** Why a task was demoted: no output digest, or the first of its artifacts that fails and what was found wrong
      with that. */
  ghost predicate Justified(h: Hash, completed: map<string, File>, db: Database, exact: bool, t: string, d: DemotedTask) {
    && d.taskId == t && t in db.tasks
    && match d.artifactId
       case None => db.tasks[t].output.None? && d.reason == OutputDigestMissing
       case Some(id) =>
         && db.tasks[t].output.Some? && id in db.artifacts && db.artifacts[id].taskId == t
         && (exact ==>
               && CheckRow(h, completed, db.artifacts[id]) == Some(d.reason)
               && forall k :: k in db.artifacts && db.artifacts[k].taskId == t && StringOrder()(k, id) ==>
                                CheckRow(h, completed, db.artifacts[k]).None?)
  }

  lemma AllListedPass(h: Hash, completed: map<string, File>, rows: map<string, ArtifactRow>, ids: set<string>, listed: seq<string>)
    requires Lists(ids, listed) && PassUpTo(h, completed, rows, listed, |listed|)
    ensures forall id :: id in ids ==> id in rows && CheckRow(h, completed, rows[id]).None?
  {
    hide CheckRow, Lists;
    ListedMembers(ids, listed);
    forall id | id in ids ensures id in rows && CheckRow(h, completed, rows[id]).None? {
      assert id in listed;
      var k :| 0 <= k < |listed| && listed[k] == id;
    }
  }

  lemma EarlierPass(h: Hash, completed: map<string, File>, rows: map<string, ArtifactRow>, ids: set<string>, listed: seq<string>, n: nat)
    requires Lists(ids, listed) && n < |listed| && PassUpTo(h, completed, rows, listed, n)
    ensures forall id :: id in ids && StringOrder()(id, listed[n]) ==> id in rows && CheckRow(h, completed, rows[id]).None?
  {
    hide CheckRow, StringOrder, Lists;
    ListedOnce(ids, listed, n);
    forall id | id in ids && StringOrder()(id, listed[n]) ensures id in rows && CheckRow(h, completed, rows[id]).None? {
      assert id in listed[..n];
      var k :| 0 <= k < n && listed[..n][k] == id;
    }
  }

  ghost predicate Passes(h: Hash, completed: map<string, File>, db: Database, t: string)
    requires t in db.tasks
  {
    && db.tasks[t].output.Some?
    && forall id :: id in db.artifacts && db.artifacts[id].taskId == t ==> CheckRow(h, completed, db.artifacts[id]).None?
  }

  /** With a faithful memo a task fails exactly when it has no output digest or an artifact of it fails. */
  lemma TaskCheckedRight(h: Hash, completed: map<string, File>, db: Database, t: string, memo: Memo)
    requires t in db.tasks && RowsAgree(completed, db) && Faithful(h, completed, db, memo)
    ensures var c := TaskChecked(h, completed, db, t, memo);
            && Faithful(h, completed, db, c.memo) && (c.failure.None? <==> Passes(h, completed, db, t))
            && (c.failure.Some? ==> Justified(h, completed, db, true, t, c.failure.value))
  {
    hide CheckRow, RowsAgree, Faithful, Lists, StringOrder, RowsChecked;
    if db.tasks[t].output.Some? {
      var ids := RowsOf(db, t);
      var listed := Listing(ids);
      ListedMembers(ids, listed);
      var c := RowsChecked(h, completed, db.artifacts, listed, t, memo);
      var n := RowsCheckedRight(h, completed, db, listed, t, memo);
      FailureIsListed(h, completed, db.artifacts, listed, t, memo);
      if c.failure.None? {
        AllListedPass(h, completed, db.artifacts, ids, listed);
      } else {
        EarlierPass(h, completed, db.artifacts, ids, listed, n);
        assert listed[n] in ids;
      }
    }
  }

  lemma TaskCheckedJustified(h: Hash, completed: map<string, File>, db: Database, t: string, memo: Memo)
    requires t in db.tasks
    ensures var c := TaskChecked(h, completed, db, t, memo);
            c.failure.Some? ==> Justified(h, completed, db, RowsAgree(completed, db) && Faithful(h, completed, db, memo), t, c.failure.value)
  {
    hide CheckRow, RowsAgree, Faithful, Lists, StringOrder, RowsChecked;
    if RowsAgree(completed, db) && Faithful(h, completed, db, memo) {
      TaskCheckedRight(h, completed, db, t, memo);
    } else if db.tasks[t].output.Some? {
      ListedMembers(RowsOf(db, t), Listing(RowsOf(db, t)));
      FailureIsListed(h, completed, db.artifacts, Listing(RowsOf(db, t)), t, memo);
    }
  }

  // ---- Checking all of them ----

  ghost predicate InTaskOrder(demoted: seq<DemotedTask>) {
    forall i, j :: 0 <= i < j < |demoted| ==> StringOrder()(demoted[i].taskId, demoted[j].taskId)
  }

  /** The report names exactly the demoted tasks, in order, each with a cause. */
  ghost predicate Reports(h: Hash, completed: map<string, File>, db: Database, failed: set<string>, demoted: seq<DemotedTask>) {
    && failed == TasksIn(demoted) && InTaskOrder(demoted)
    && (forall i :: 0 <= i < |demoted| ==> Justified(h, completed, db, RowsAgree(completed, db), demoted[i].taskId, demoted[i]))
  }

  lemma ReportsMore(h: Hash, completed: map<string, File>, db: Database, failed: set<string>, demoted: seq<DemotedTask>, d: DemotedTask)
    requires Reports(h, completed, db, failed, demoted) && Justified(h, completed, db, RowsAgree(completed, db), d.taskId, d)
    requires forall t :: t in failed ==> StringOrder()(t, d.taskId)
    ensures Reports(h, completed, db, failed + {d.taskId}, demoted + [d])
  {
    hide Justified, RowsAgree, StringOrder;
    TasksInSnoc(demoted, d);
    forall i | 0 <= i < |demoted| ensures StringOrder()(demoted[i].taskId, d.taskId) {
      assert demoted[i] in demoted;
    }
  }

  /** What is known once the first `i` listed tasks were checked. */
  ghost predicate CheckedSoFar(h: Hash, completed: map<string, File>, db: Database, listed: seq<string>, v: Verified) {
    && TasksIn(v.demoted) <= Members(listed)
    && Reports(h, completed, db, TasksIn(v.demoted), v.demoted)
    && (RowsAgree(completed, db) ==>
          && Faithful(h, completed, db, v.memo)
          && forall t :: t in listed && t in db.tasks ==> (t in TasksIn(v.demoted) <==> !Passes(h, completed, db, t)))
  }

  lemma NextChecked(h: Hash, completed: map<string, File>, db: Database, listed: seq<string>, v: Verified, t: string)
    requires CheckedSoFar(h, completed, db, listed, v) && t in db.tasks && t !in Members(listed)
    requires forall x :: x in Members(listed) ==> StringOrder()(x, t)
    ensures var now := TaskChecked(h, completed, db, t, v.memo);
            CheckedSoFar(h, completed, db, listed + [t],
                         Verified(if now.failure.Some? then v.demoted + [now.failure.value] else v.demoted, now.memo))
  {
    var now := TaskChecked(h, completed, db, t, v.memo);
    TaskCheckedJustified(h, completed, db, t, v.memo);
    if RowsAgree(completed, db) { TaskCheckedRight(h, completed, db, t, v.memo); }
    hide RowsAgree, Faithful, StringOrder, TaskChecked, Passes, Reports;
    assert Members(listed + [t]) == Members(listed) + {t};
    assert t !in TasksIn(v.demoted);
    if now.failure.Some? {
      JustifiedFor(h, completed, db, t, now.failure.value, v.memo);
      TasksInSnoc(v.demoted, now.failure.value);
      ReportsMore(h, completed, db, TasksIn(v.demoted), v.demoted, now.failure.value);
    }
  }

  lemma JustifiedFor(h: Hash, completed: map<string, File>, db: Database, t: string, d: DemotedTask, memo: Memo)
    requires Justified(h, completed, db, RowsAgree(completed, db) && Faithful(h, completed, db, memo), t, d)
    requires RowsAgree(completed, db) ==> Faithful(h, completed, db, memo)
    ensures d.taskId == t && Justified(h, completed, db, RowsAgree(completed, db), t, d)
  {
  }

  lemma {:induction false} TasksCheckedSoFar(h: Hash, completed: map<string, File>, db: Database, listed: seq<string>, i: nat)
    requires Lists(CommittedTasks(db), listed) && i <= |listed| && forall k :: 0 <= k < |listed| ==> listed[k] in db.tasks
    ensures CheckedSoFar(h, completed, db, listed[..i], TasksChecked(h, completed, db, listed[..i]))
  {
    hide CheckedSoFar, TaskChecked, Lists;
    if i == 0 {
      StartChecked(h, completed, db);
      assert listed[..0] == [];
    } else {
      TasksCheckedSoFar(h, completed, db, listed, i - 1);
      ListedOnce(CommittedTasks(db), listed, i - 1);
      assert listed[..i][..i - 1] == listed[..i - 1] && listed[..i] == listed[..i - 1] + [listed[i - 1]];
      NextChecked(h, completed, db, listed[..i - 1], TasksChecked(h, completed, db, listed[..i - 1]), listed[i - 1]);
    }
  }

  lemma StartChecked(h: Hash, completed: map<string, File>, db: Database)
    ensures CheckedSoFar(h, completed, db, [], Verified([], map[]))
  {
    NothingRemembered(h, completed, db);
  }

  /** The report names committed tasks, each with its cause; and on tables whose rows agree exactly those that do
      not verify. */
  lemma ReportIsRight(h: Hash, completed: map<string, File>, db: Database)
    ensures Failing(h, completed, db) <= CommittedTasks(db)
    ensures Reports(h, completed, db, Failing(h, completed, db), Report(h, completed, db))
    ensures RowsAgree(completed, db) ==> Failing(h, completed, db) == set t | t in CommittedTasks(db) && !Verifies(h, completed, db, t)
  {
    var all := CommittedTasks(db);
    var listed := Listing(all);
    ListedMembers(all, listed);
    TasksCheckedSoFar(h, completed, db, listed, |listed|);
    assert listed[..|listed|] == listed;
    hide Reports, RowsAgree, CheckRow, Lists, Listing, TasksChecked, Faithful;
    forall t | t in all ensures t in db.tasks && (Verifies(h, completed, db, t) <==> Passes(h, completed, db, t)) {}
  }

  // ---- Where the memo misleads ----

  /** A journal of two committed tasks with one artifact each. */
  function TwoTasks(first: ArtifactRow, second: ArtifactRow): Database {
    var task := TaskRow(Some(Committed), Some("output"), {});
    Database(map["a" := task, "b" := task], map["1" := first.(taskId := "a"), "2" := second.(taskId := "b")])
  }

  lemma ListingOfOne(x: string)
    ensures Listing({x}) == [x]
  {
    assert Members([x]) == {x};
    ListingIsUnique({x}, [x], Listing({x}));
  }

  lemma ListingOfTwo()
    ensures Listing({"a", "b"}) == ["a", "b"]
  {
    assert Members(["a", "b"]) == {"a", "b"};
    ListingIsUnique({"a", "b"}, ["a", "b"], Listing({"a", "b"}));
  }

  lemma OneRowChecked(h: Hash, completed: map<string, File>, db: Database, t: string, id: string, memo: Memo)
    requires t in db.tasks && db.tasks[t].output.Some? && RowsOf(db, t) == {id}
    ensures var c := TaskChecked(h, completed, db, t, memo);
            && (c.failure.None? <==> Verdict(h, completed, memo, db.artifacts[id]).None?)
            && c.memo == Remember(h, completed, memo, db.artifacts[id])
  {
    ListingOfOne(id);
    hide Verdict, Remember;
    assert id in RowsOf(db, t);
    var none: seq<string> := [];
    assert [id][..0] == none;
    assert RowsChecked(h, completed, db.artifacts, none, t, memo) == Checked(None, memo);
  }

  /** Of two tasks, the first fails by its row's own check, the second by whatever was remembered. */
  lemma TwoTasksFail(h: Hash, completed: map<string, File>, first: ArtifactRow, second: ArtifactRow)
    ensures var db := TwoTasks(first, second);
            && CommittedTasks(db) == {"a", "b"}
            && ("a" in Failing(h, completed, db) <==> CheckRow(h, completed, first).Some?)
            && ("b" in Failing(h, completed, db) <==> Verdict(h, completed, Remember(h, completed, map[], first), second).Some?)
  {
    var db := TwoTasks(first, second);
    assert CommittedTasks(db) == {"a", "b"};
    assert RowsOf(db, "a") == {"1"} && RowsOf(db, "b") == {"2"};
    ListingOfTwo();
    OneRowChecked(h, completed, db, "a", "1", map[]);
    var a := TaskChecked(h, completed, db, "a", map[]);
    OneRowChecked(h, completed, db, "b", "2", a.memo);
    SameButOwner(h, completed, map[], first, "a");
    SameButOwner(h, completed, a.memo, second, "b");
    hide Verdict, Remember, CheckRow, TaskChecked;
    TwoTasksChecked(h, completed, db);
  }

  lemma SameButOwner(h: Hash, completed: map<string, File>, memo: Memo, row: ArtifactRow, t: string)
    ensures Verdict(h, completed, memo, row.(taskId := t)) == Verdict(h, completed, memo, row)
    ensures Remember(h, completed, memo, row.(taskId := t)) == Remember(h, completed, memo, row)
    ensures Verdict(h, completed, map[], row) == CheckRow(h, completed, row)
  {
  }

  lemma TwoTasksChecked(h: Hash, completed: map<string, File>, db: Database)
    requires CommittedTasks(db) == {"a", "b"}
    ensures "a" in db.tasks && "b" in db.tasks
    ensures var a := TaskChecked(h, completed, db, "a", map[]);
            var b := TaskChecked(h, completed, db, "b", a.memo);
            && ("a" in Failing(h, completed, db) <==> a.failure.Some?)
            && ("b" in Failing(h, completed, db) <==> b.failure.Some?)
  {
    assert "a" in CommittedTasks(db) && "b" in CommittedTasks(db);
    ListingOfTwo();
    var a := TaskChecked(h, completed, db, "a", map[]);
    var b := TaskChecked(h, completed, db, "b", a.memo);
    TaskCheckedJustified(h, completed, db, "a", map[]);
    TaskCheckedJustified(h, completed, db, "b", a.memo);
    hide TaskChecked, RowsAgree, Faithful;
    var none: seq<string> := [];
    assert ["a"][..0] == none && ["a", "b"][..1] == ["a"];
    assert TasksChecked(h, completed, db, none) == Verified([], map[]);
    if a.failure.Some? { TasksInSnoc([], a.failure.value); }
    var first := TasksChecked(h, completed, db, ["a"]).demoted;
    if b.failure.Some? { TasksInSnoc(first, b.failure.value); }
  }

  /** Two ways in which the memo misleads a resume: a task is kept whose blob does not have the recorded length,
      and one is demoted whose blob is as recorded. */
  lemma MemoCanErr(h: Hash, bytes: seq<byte>) returns (d: Disk, e: Disk, t: string)
    ensures CommittedIn(d.db, t) && !Verifies(h, d.completed, d.db, t) && t !in Failing(h, d.completed, d.db)
    ensures CommittedIn(e.db, t) && Verifies(h, e.completed, e.db, t) && t in Failing(h, e.completed, e.db)
  {
    var hex: string := h(bytes);
    var completed := map[hex := Regular(bytes)];
    var right := ArtifactRow("", CompletedPath(hex), hex, |bytes|);
    var wrong := right.(byteLength := |bytes| + 1);
    TwoTasksFail(h, completed, right, wrong);
    TwoTasksFail(h, completed, wrong, right);
    d := Disk(map[], completed, TwoTasks(right, wrong));
    e := Disk(map[], completed, TwoTasks(wrong, right));
    t := "b";
    hide Failing;
    assert d.db.artifacts["2"] == wrong.(taskId := "b");
    assert e.db.artifacts["2"] == right.(taskId := "b");
  }
}
