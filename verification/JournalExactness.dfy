/** Exactly when a resume is right in what it demotes and reports, although it checks each file only once. */
module JournalExactness {
  import opened Basics
  import opened JournalState
  import opened JournalResumes
  import opened JournalVerification
  import opened Sorting

  // ---- The rows a resume checks ----

  /** Of the listed rows those that are checked: all up to the first that fails. */
  function RowsMet(h: Hash, completed: map<string, File>, rows: map<string, ArtifactRow>, listed: seq<string>, t: string, memo: Memo): seq<string>
    requires forall k :: 0 <= k < |listed| ==> listed[k] in rows
  {
    if listed == [] then []
    else
      var n := |listed| - 1;
      var before := RowsMet(h, completed, rows, listed[..n], t, memo);
      if RowsChecked(h, completed, rows, listed[..n], t, memo).failure.Some? then before else before + [listed[n]]
  }

  ghost function TaskMet(h: Hash, completed: map<string, File>, db: Database, t: string, memo: Memo): seq<string>
    requires t in db.tasks
  {
    if db.tasks[t].output.None? then []
    else
      ListedMembers(RowsOf(db, t), Listing(RowsOf(db, t)));
      RowsMet(h, completed, db.artifacts, Listing(RowsOf(db, t)), t, memo)
  }

  ghost function TasksMet(h: Hash, completed: map<string, File>, db: Database, listed: seq<string>): seq<string>
    requires forall k :: 0 <= k < |listed| ==> listed[k] in db.tasks
  {
    if listed == [] then []
    else
      var n := |listed| - 1;
      TasksMet(h, completed, db, listed[..n]) + TaskMet(h, completed, db, listed[n], TasksChecked(h, completed, db, listed[..n]).memo)
  }

  /** The ids of all rows that a resume checks, in the order in which it does. */
  ghost function Met(h: Hash, completed: map<string, File>, db: Database): seq<string> {
    ListedMembers(CommittedTasks(db), Listing(CommittedTasks(db)));
    TasksMet(h, completed, db, Listing(CommittedTasks(db)))
  }

  /** Of these rows those that share a file measure it alike. */
  ghost predicate Agree(completed: map<string, File>, rows: map<string, ArtifactRow>, met: seq<string>) {
    forall a, b :: a in met && b in met && a in rows && b in rows ==> MeasureAlike(completed, rows[a], rows[b])
  }

  // ---- What is right ----

  /** Every verdict given for the listed rows is that of a check of its own. */
  ghost predicate RowsRight(h: Hash, completed: map<string, File>, rows: map<string, ArtifactRow>, listed: seq<string>, t: string, memo: Memo)
    requires forall k :: 0 <= k < |listed| ==> listed[k] in rows
  {
    listed == [] ||
    (var n := |listed| - 1;
     var before := RowsChecked(h, completed, rows, listed[..n], t, memo);
     && RowsRight(h, completed, rows, listed[..n], t, memo)
     && (before.failure.None? ==> Verdict(h, completed, before.memo, rows[listed[n]]) == CheckRow(h, completed, rows[listed[n]])))
  }

  ghost predicate TaskRight(h: Hash, completed: map<string, File>, db: Database, t: string, memo: Memo)
    requires t in db.tasks
  {
    if db.tasks[t].output.None? then true
    else
      ListedMembers(RowsOf(db, t), Listing(RowsOf(db, t)));
      RowsRight(h, completed, db.artifacts, Listing(RowsOf(db, t)), t, memo)
  }

  ghost predicate TasksRight(h: Hash, completed: map<string, File>, db: Database, listed: seq<string>)
    requires forall k :: 0 <= k < |listed| ==> listed[k] in db.tasks
  {
    listed == [] ||
    (var n := |listed| - 1;
     && TasksRight(h, completed, db, listed[..n])
     && TaskRight(h, completed, db, listed[n], TasksChecked(h, completed, db, listed[..n]).memo))
  }

  /** The failure is the first listed row that fails a check of its own, and there is one if any does. */
  ghost predicate RowsExact(h: Hash, completed: map<string, File>, rows: map<string, ArtifactRow>, listed: seq<string>, failure: Option<DemotedTask>) {
    match failure
    case None => PassUpTo(h, completed, rows, listed, |listed|)
    case Some(d) => exists n :: FirstToFail(h, completed, rows, listed, n, d)
  }

  ghost predicate TaskExact(h: Hash, completed: map<string, File>, db: Database, t: string, failure: Option<DemotedTask>)
    requires t in db.tasks
  {
    match failure
    case None => Passes(h, completed, db, t)
    case Some(d) => Justified(h, completed, db, true, t, d)
  }

  /** Exactly the committed tasks that do not verify are demoted, each for the first of its artifacts that fails and
      for what is wrong with that. */
  ghost predicate ReportIsExact(h: Hash, completed: map<string, File>, db: Database) {
    && Failing(h, completed, db) == (set t | t in CommittedTasks(db) && !Verifies(h, completed, db, t))
    && forall i :: 0 <= i < |Report(h, completed, db)| ==>
         Justified(h, completed, db, true, Report(h, completed, db)[i].taskId, Report(h, completed, db)[i])
  }

  // ---- Verdicts are right exactly when the rows checked agree ----

  /** The memo holds, for the files of the rows met and no others, the check of one of these rows. */
  ghost predicate Remembers(h: Hash, completed: map<string, File>, rows: map<string, ArtifactRow>, met: seq<string>, memo: Memo) {
    && (forall a :: a in met && a in rows && WellFormedRow(rows[a]) ==> rows[a].path in memo)
    && (forall p :: p in memo ==>
          exists a :: a in met && a in rows && WellFormedRow(rows[a]) && rows[a].path == p && memo[p] == CheckRow(h, completed, rows[a]))
  }

  lemma RemembersMore(h: Hash, completed: map<string, File>, rows: map<string, ArtifactRow>, met: seq<string>, memo: Memo, id: string)
    requires Remembers(h, completed, rows, met, memo) && id in rows
    ensures Remembers(h, completed, rows, met + [id], Remember(h, completed, memo, rows[id]))
  {
    hide CheckRow, WellFormedRow;
    var next := Remember(h, completed, memo, rows[id]);
    forall p | p in next
      ensures exists a :: a in met + [id] && a in rows && WellFormedRow(rows[a]) && rows[a].path == p && next[p] == CheckRow(h, completed, rows[a])
    {
      if p in memo {
        var a :| a in met && a in rows && WellFormedRow(rows[a]) && rows[a].path == p && memo[p] == CheckRow(h, completed, rows[a]);
        assert a in met + [id];
      } else {
        assert id in met + [id];
      }
    }
  }

  lemma SameCheck(h: Hash, completed: map<string, File>, a: ArtifactRow, b: ArtifactRow)
    requires WellFormedRow(a) && WellFormedRow(b) && a.path == b.path
    ensures CheckRow(h, completed, a) == CheckRow(h, completed, b) <==> MeasureAlike(completed, a, b)
  {
    PathsDiffer(a.blake3, b.blake3);
  }

  lemma AlikeIsReflexive(completed: map<string, File>, a: ArtifactRow)
    ensures MeasureAlike(completed, a, a)
  {
  }

  lemma AlikeIsSymmetric(completed: map<string, File>, a: ArtifactRow, b: ArtifactRow)
    ensures MeasureAlike(completed, a, b) <==> MeasureAlike(completed, b, a)
  {
    PathsDiffer(a.blake3, b.blake3);
  }

  lemma AlikeIsTransitive(completed: map<string, File>, a: ArtifactRow, b: ArtifactRow, c: ArtifactRow)
    requires WellFormedRow(b) && b.path == a.path && MeasureAlike(completed, a, b) && MeasureAlike(completed, b, c)
    ensures MeasureAlike(completed, a, c)
  {
    PathsDiffer(a.blake3, b.blake3);
    PathsDiffer(b.blake3, c.blake3);
  }

  /** One more row gets the verdict of its own check exactly when it measures its file as the rows before do. */
  lemma NextVerdict(h: Hash, completed: map<string, File>, rows: map<string, ArtifactRow>, met: seq<string>, memo: Memo, id: string)
    requires Remembers(h, completed, rows, met, memo) && id in rows && Agree(completed, rows, met)
    ensures Verdict(h, completed, memo, rows[id]) == CheckRow(h, completed, rows[id]) <==>
            forall a :: a in met && a in rows ==> MeasureAlike(completed, rows[a], rows[id])
  {
    var row := rows[id];
    if WellFormedRow(row) && row.path in memo {
      var a :| a in met && a in rows && WellFormedRow(rows[a]) && rows[a].path == row.path && memo[row.path] == CheckRow(h, completed, rows[a]);
      SameCheck(h, completed, rows[a], row);
      hide CheckRow;
      if MeasureAlike(completed, rows[a], row) {
        forall b | b in met && b in rows ensures MeasureAlike(completed, rows[b], row) {
          if WellFormedRow(rows[b]) && rows[b].path == row.path { AlikeIsTransitive(completed, rows[b], rows[a], row); }
        }
      }
    }
  }

  lemma AgreeMore(completed: map<string, File>, rows: map<string, ArtifactRow>, met: seq<string>, id: string)
    requires id in rows
    ensures Agree(completed, rows, met + [id]) <==>
            Agree(completed, rows, met) && forall a :: a in met && a in rows ==> MeasureAlike(completed, rows[a], rows[id])
  {
    assert forall a :: a in met + [id] <==> a in met || a == id;
    forall a | a in met && a in rows
      ensures MeasureAlike(completed, rows[a], rows[id]) <==> MeasureAlike(completed, rows[id], rows[a])
    {
      AlikeIsSymmetric(completed, rows[a], rows[id]);
    }
    hide MeasureAlike;
    assert MeasureAlike(completed, rows[id], rows[id]) by { AlikeIsReflexive(completed, rows[id]); }
  }

  lemma {:induction false} RowsRightIffAgree(h: Hash, completed: map<string, File>, rows: map<string, ArtifactRow>, met: seq<string>, listed: seq<string>, t: string, memo: Memo)
    requires forall k :: 0 <= k < |listed| ==> listed[k] in rows
    requires Remembers(h, completed, rows, met, memo)
    ensures var more := met + RowsMet(h, completed, rows, listed, t, memo);
            && (Agree(completed, rows, met) && RowsRight(h, completed, rows, listed, t, memo) <==> Agree(completed, rows, more))
            && Remembers(h, completed, rows, more, RowsChecked(h, completed, rows, listed, t, memo).memo)
  {
    hide Verdict, CheckRow, Remember, Remembers, Agree;
    if listed == [] {
      assert met + [] == met;
    } else {
      var n := |listed| - 1;
      RowsRightIffAgree(h, completed, rows, met, listed[..n], t, memo);
      var before := RowsChecked(h, completed, rows, listed[..n], t, memo);
      if before.failure.None? {
        var metBefore := met + RowsMet(h, completed, rows, listed[..n], t, memo);
        assert met + RowsMet(h, completed, rows, listed, t, memo) == metBefore + [listed[n]];
        AgreeMore(completed, rows, metBefore, listed[n]);
        RemembersMore(h, completed, rows, metBefore, before.memo, listed[n]);
        if Agree(completed, rows, metBefore) { NextVerdict(h, completed, rows, metBefore, before.memo, listed[n]); }
      }
    }
  }

  lemma TaskRightIffAgree(h: Hash, completed: map<string, File>, db: Database, met: seq<string>, t: string, memo: Memo)
    requires t in db.tasks && Remembers(h, completed, db.artifacts, met, memo)
    ensures var more := met + TaskMet(h, completed, db, t, memo);
            && (Agree(completed, db.artifacts, met) && TaskRight(h, completed, db, t, memo) <==> Agree(completed, db.artifacts, more))
            && Remembers(h, completed, db.artifacts, more, TaskChecked(h, completed, db, t, memo).memo)
  {
    hide Remembers, Agree, RowsRight, RowsChecked, RowsMet;
    if db.tasks[t].output.None? {
      assert met + [] == met;
    } else {
      var listed := Listing(RowsOf(db, t));
      ListedMembers(RowsOf(db, t), listed);
      RowsRightIffAgree(h, completed, db.artifacts, met, listed, t, memo);
    }
  }

  lemma {:induction false} TasksRightIffAgree(h: Hash, completed: map<string, File>, db: Database, listed: seq<string>)
    requires forall k :: 0 <= k < |listed| ==> listed[k] in db.tasks
    ensures TasksRight(h, completed, db, listed) <==> Agree(completed, db.artifacts, TasksMet(h, completed, db, listed))
    ensures Remembers(h, completed, db.artifacts, TasksMet(h, completed, db, listed), TasksChecked(h, completed, db, listed).memo)
  {
    if listed != [] {
      hide Remembers, Agree, TaskRight, TaskChecked, TaskMet;
      var n := |listed| - 1;
      TasksRightIffAgree(h, completed, db, listed[..n]);
      TaskRightIffAgree(h, completed, db, TasksMet(h, completed, db, listed[..n]), listed[n], TasksChecked(h, completed, db, listed[..n]).memo);
    }
  }

  // ---- The report is exact exactly when verdicts are right ----

  lemma {:induction false} RowsRightIffExact(h: Hash, completed: map<string, File>, rows: map<string, ArtifactRow>, listed: seq<string>, t: string, memo: Memo)
    requires (forall k :: 0 <= k < |listed| ==> listed[k] in rows) && Distinct(listed)
    ensures RowsRight(h, completed, rows, listed, t, memo) <==>
            RowsExact(h, completed, rows, listed, RowsChecked(h, completed, rows, listed, t, memo).failure)
  {
    if listed != [] {
      var n := |listed| - 1;
      var before, now := RowsChecked(h, completed, rows, listed[..n], t, memo), RowsChecked(h, completed, rows, listed, t, memo);
      RowsRightIffExact(h, completed, rows, listed[..n], t, memo);
      FailureIsListed(h, completed, rows, listed[..n], t, memo);
      hide CheckRow, Verdict, Remember;
      if before.failure.Some? {
        SameFailure(h, completed, rows, listed, before.failure.value);
      } else {
        assert PassUpTo(h, completed, rows, listed[..n], n) <==> PassUpTo(h, completed, rows, listed, n);
        if now.failure.Some? { FailsLast(h, completed, rows, listed, now.failure.value); }
      }
    }
  }

  lemma SameFailure(h: Hash, completed: map<string, File>, rows: map<string, ArtifactRow>, listed: seq<string>, d: DemotedTask)
    requires Distinct(listed) && listed != [] && d.artifactId.Some? && d.artifactId.value in listed[..|listed| - 1]
    ensures RowsExact(h, completed, rows, listed, Some(d)) <==> RowsExact(h, completed, rows, listed[..|listed| - 1], Some(d))
  {
    hide CheckRow;
    var front := listed[..|listed| - 1];
    if n :| FirstToFail(h, completed, rows, listed, n, d) { assert FirstToFail(h, completed, rows, front, n, d); }
    if n :| FirstToFail(h, completed, rows, front, n, d) { assert FirstToFail(h, completed, rows, listed, n, d); }
  }

  lemma FailsLast(h: Hash, completed: map<string, File>, rows: map<string, ArtifactRow>, listed: seq<string>, d: DemotedTask)
    requires Distinct(listed) && listed != [] && d.artifactId == Some(listed[|listed| - 1])
    ensures RowsExact(h, completed, rows, listed, Some(d)) <==> FirstToFail(h, completed, rows, listed, |listed| - 1, d)
  {
  }

  lemma TaskRightIffExact(h: Hash, completed: map<string, File>, db: Database, t: string, memo: Memo)
    requires t in db.tasks
    ensures TaskRight(h, completed, db, t, memo) <==> TaskExact(h, completed, db, t, TaskChecked(h, completed, db, t, memo).failure)
  {
    hide RowsRight, RowsExact, RowsChecked, CheckRow, Lists, StringOrder;
    if db.tasks[t].output.Some? {
      var ids := RowsOf(db, t);
      var listed := Listing(ids);
      ListedMembers(ids, listed);
      ListedDistinct(ids, listed);
      RowsRightIffExact(h, completed, db.artifacts, listed, t, memo);
      FailureIsListed(h, completed, db.artifacts, listed, t, memo);
      RowsExactIsTaskExact(h, completed, db, t, listed, RowsChecked(h, completed, db.artifacts, listed, t, memo).failure);
    }
  }

  lemma ListedDistinct(s: set<string>, listed: seq<string>)
    requires Lists(s, listed)
    ensures Distinct(listed)
  {
    StringOrderIsLinear(s);
    IncreasingDistinct(StringOrder(), listed, s);
  }

  lemma RowsExactIsTaskExact(h: Hash, completed: map<string, File>, db: Database, t: string, listed: seq<string>, failure: Option<DemotedTask>)
    requires t in db.tasks && db.tasks[t].output.Some? && Lists(RowsOf(db, t), listed)
    requires failure.Some? ==>
               failure.value.taskId == t && failure.value.artifactId.Some? && failure.value.artifactId.value in listed
    ensures RowsExact(h, completed, db.artifacts, listed, failure) <==> TaskExact(h, completed, db, t, failure)
  {
    ListedMembers(RowsOf(db, t), listed);
    hide CheckRow, StringOrder;
    if failure.None? {
      if PassUpTo(h, completed, db.artifacts, listed, |listed|) { AllListedPass(h, completed, db.artifacts, RowsOf(db, t), listed); }
    } else {
      var d := failure.value;
      if n :| FirstToFail(h, completed, db.artifacts, listed, n, d) {
        EarlierPass(h, completed, db.artifacts, RowsOf(db, t), listed, n);
      }
      if Justified(h, completed, db, true, t, d) {
        var n :| 0 <= n < |listed| && listed[n] == d.artifactId.value;
        assert FirstToFail(h, completed, db.artifacts, listed, n, d);
      }
    }
  }

  /** What was decided about the listed tasks is right. */
  ghost predicate DecidedRight(h: Hash, completed: map<string, File>, db: Database, listed: seq<string>, demoted: seq<DemotedTask>) {
    && (forall t :: t in listed && t in db.tasks ==> (t in TasksIn(demoted) <==> !Passes(h, completed, db, t)))
    && forall i :: 0 <= i < |demoted| ==> Justified(h, completed, db, true, demoted[i].taskId, demoted[i])
  }

  lemma JustifiedFails(h: Hash, completed: map<string, File>, db: Database, t: string, d: DemotedTask)
    requires Justified(h, completed, db, true, t, d)
    ensures d.taskId == t && t in db.tasks && !Passes(h, completed, db, t)
  {
  }

  lemma DecideMore(h: Hash, completed: map<string, File>, db: Database, listed: seq<string>, demoted: seq<DemotedTask>, t: string, failure: Option<DemotedTask>)
    requires t in db.tasks && t !in listed && TasksIn(demoted) <= Members(listed)
    requires failure.Some? ==> failure.value.taskId == t
    ensures var more := if failure.Some? then demoted + [failure.value] else demoted;
            && TasksIn(more) <= Members(listed + [t])
            && (DecidedRight(h, completed, db, listed + [t], more) <==>
                  DecidedRight(h, completed, db, listed, demoted) && TaskExact(h, completed, db, t, failure))
  {
    hide Justified, Passes, TasksIn;
    assert Members(listed + [t]) == Members(listed) + {t};
    assert t !in Members(listed);
    assert forall x :: x in listed + [t] <==> x in listed || x == t;
    assert forall x :: x in listed ==> x in Members(listed);
    if failure.Some? {
      var d := failure.value;
      TasksInSnoc(demoted, d);
      if Justified(h, completed, db, true, t, d) { JustifiedFails(h, completed, db, t, d); }
      var more := demoted + [d];
      assert more[|demoted|] == d;
      assert forall i :: 0 <= i < |demoted| ==> more[i] == demoted[i];
    }
  }

  lemma {:induction false} TasksRightIffDecided(h: Hash, completed: map<string, File>, db: Database, listed: seq<string>)
    requires (forall k :: 0 <= k < |listed| ==> listed[k] in db.tasks) && Distinct(listed)
    ensures var v := TasksChecked(h, completed, db, listed);
            && TasksIn(v.demoted) <= Members(listed)
            && (TasksRight(h, completed, db, listed) <==> DecidedRight(h, completed, db, listed, v.demoted))
  {
    if listed != [] {
      hide DecidedRight, TaskRight, TaskExact, TaskChecked, TasksIn, Justified;
      var n := |listed| - 1;
      var before := TasksChecked(h, completed, db, listed[..n]);
      TasksRightIffDecided(h, completed, db, listed[..n]);
      TaskRightIffExact(h, completed, db, listed[n], before.memo);
      FailureIsOf(h, completed, db, listed[n], before.memo);
      assert listed[..n] + [listed[n]] == listed;
      DecideMore(h, completed, db, listed[..n], before.demoted, listed[n], TaskChecked(h, completed, db, listed[n], before.memo).failure);
    }
  }

  lemma FailureIsOf(h: Hash, completed: map<string, File>, db: Database, t: string, memo: Memo)
    requires t in db.tasks
    ensures var c := TaskChecked(h, completed, db, t, memo); c.failure.Some? ==> c.failure.value.taskId == t
  {
    TaskCheckedJustified(h, completed, db, t, memo);
  }

  lemma DecidedIsExact(h: Hash, completed: map<string, File>, db: Database, listed: seq<string>)
    requires Failing(h, completed, db) <= CommittedTasks(db) && forall t :: t in listed <==> t in CommittedTasks(db)
    ensures DecidedRight(h, completed, db, listed, Report(h, completed, db)) <==> ReportIsExact(h, completed, db)
  {
    hide CheckRow, Report, Justified, TasksIn;
    forall t | t in listed ensures t in db.tasks && (Verifies(h, completed, db, t) <==> Passes(h, completed, db, t)) {
      assert t in CommittedTasks(db);
    }
  }

  /** A resume demotes exactly the tasks that do not verify, and says of each the first artifact that fails and why,
      if and only if, of the rows it checks, those that share a file measure it alike. */
  lemma ReportIsExactIff(h: Hash, completed: map<string, File>, db: Database)
    ensures ReportIsExact(h, completed, db) <==> Agree(completed, db.artifacts, Met(h, completed, db))
  {
    hide ReportIsExact, DecidedRight, Failing, RowsAgree, Lists, Listing, TasksChecked, TasksRight, Agree, TasksMet, Reports, CommittedTasks;
    var listed := Listing(CommittedTasks(db));
    InTables(db);
    ListedMembers(CommittedTasks(db), listed);
    ListedDistinct(CommittedTasks(db), listed);
    TasksRightIffAgree(h, completed, db, listed);
    TasksRightIffDecided(h, completed, db, listed);
    ReportIsRight(h, completed, db);
    DecidedIsExact(h, completed, db, listed);
  }

  lemma InTables(db: Database)
    ensures forall t :: t in CommittedTasks(db) ==> t in db.tasks
  {
  }
}
