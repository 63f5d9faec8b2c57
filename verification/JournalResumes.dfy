/** What resuming a journal does (journal_resume.cpp). */
module JournalResumes {
  import opened Basics
  import opened JournalState
  import opened JournalOutcomes
  import opened Sorting
  import opened ReadyQueues

  datatype DemotionReason =
    | ArtifactMissing
    | ArtifactNotRegularFile
    | ArtifactSizeMismatch
    | ArtifactHashMismatch
    | ArtifactRecordInvalid
    | OutputDigestMissing

  function DemotionFor(check: BlobCheck): Option<DemotionReason> {
    match check
    case BlobValid => None
    case BlobMissing => Some(ArtifactMissing)
    case NotRegularFile => Some(ArtifactNotRegularFile)
    case SizeMismatch => Some(ArtifactSizeMismatch)
    case DigestMismatch => Some(ArtifactHashMismatch)
  }

  predicate WellFormedRow(row: ArtifactRow) {
    IsDigestHex(row.blake3) && row.byteLength >= 0 && row.path == CompletedPath(row.blake3)
  }

  /** Checking a row on its own. */
  function CheckRow(h: Hash, completed: map<string, File>, row: ArtifactRow): Option<DemotionReason> {
    if !WellFormedRow(row) then Some(ArtifactRecordInvalid)
    else DemotionFor(CheckBlob(h, completed, row.blake3, row.byteLength))
  }

  /** 64 hexadecimal digits, lower case, by their ASCII codes. */
  ghost predicate IsDigestText(s: string) {
    |s| == 64 && forall i :: 0 <= i < 64 ==> 48 <= s[i] as int <= 57 || 97 <= s[i] as int <= 102
  }

  /** Which fault of a row is given which reason: first a row that names no completed blob, then a blob that is missing, no
      regular file, of another length, or of another digest; and no fault exactly for a good file. */
  lemma RowMeans(h: Hash, completed: map<string, File>, row: ArtifactRow)
    ensures var name, r := row.blake3, CheckRow(h, completed, row);
            var valid := IsDigestText(name) && row.byteLength >= 0 && row.path == "blobs/completed/" + name;
            var there := valid && name in completed;
            var regular := there && completed[name].Regular?;
            && (r == Some(ArtifactRecordInvalid) <==> !valid)
            && (r == Some(ArtifactMissing) <==> valid && !there)
            && (r == Some(ArtifactNotRegularFile) <==> there && !regular)
            && (r == Some(ArtifactSizeMismatch) <==> regular && |completed[name].bytes| != row.byteLength)
            && (r == Some(ArtifactHashMismatch) <==>
                  regular && |completed[name].bytes| == row.byteLength && h(completed[name].bytes) != name)
            && (r.None? <==> valid && GoodFile(h, completed, name, row.byteLength))
  {
    CheckMeans(h, completed, row.blake3, row.byteLength);
    assert IsDigestHex(row.blake3) <==> IsDigestText(row.blake3);
    hide IsDigestHex, IsDigestText, CheckBlob;
  }

  /** What resume keeps: a task committed before, with its output digest, all of whose artifacts verify. */
  ghost predicate Verifies(h: Hash, completed: map<string, File>, db: Database, t: string) {
    && t in db.tasks && db.tasks[t].status == Some(Committed) && db.tasks[t].output.Some?
    && forall id :: id in db.artifacts && db.artifacts[id].taskId == t ==> CheckRow(h, completed, db.artifacts[id]).None?
  }

  predicate CommittedIn(db: Database, t: string) {
    t in db.tasks && db.tasks[t].status == Some(Committed)
  }

  function CommittedTasks(db: Database): set<string> {
    set t | t in db.tasks && CommittedIn(db, t)
  }

  function ResumedRow(row: TaskRow, t: string, kept: set<string>, demoted: set<string>): TaskRow {
    if t in kept then row
    else TaskRow(Some(if row.dependsOn <= kept then Ready else Planned), if t in demoted then None else row.output, row.dependsOn)
  }

  /** The tables after resume: `demoted` of the committed tasks lose their output and their rows, and every
      task not committed is ready or planned. */
  function ResumedDb(db: Database, demoted: set<string>): Database {
    var kept := CommittedTasks(db) - demoted;
    Database(map t | t in db.tasks :: ResumedRow(db.tasks[t], t, kept, demoted),
             map id | id in db.artifacts && db.artifacts[id].taskId !in demoted :: db.artifacts[id])
  }

  // ---- Listing in order ----

  ghost predicate Lists(s: set<string>, list: seq<string>) {
    Members(list) == s && Increasing(StringOrder(), list)
  }

  function StringOrder(): (string, string) -> bool { (a, b) => LexBefore(CharLess(), a, b) }

  lemma StringOrderIsLinear(among: set<string>)
    ensures Linear(StringOrder(), among)
  {
    forall x, y, z | x in among && y in among && z in among
      ensures !StringOrder()(x, x)
      ensures x != y ==> StringOrder()(x, y) || StringOrder()(y, x)
      ensures StringOrder()(x, y) && StringOrder()(y, z) ==> StringOrder()(x, z)
    {
      LexTotal(CharLess(), x, y);
      LexTotal(CharLess(), x, x);
      if StringOrder()(x, y) && StringOrder()(y, z) { LexTransitive(CharLess(), x, y, z); }
    }
  }

  lemma ListingIsUnique(s: set<string>, a: seq<string>, b: seq<string>)
    requires Lists(s, a) && Lists(s, b)
    ensures a == b
  {
    StringOrderIsLinear(s);
    IncreasingIsUnique(StringOrder(), a, b, s);
  }

  ghost function Listing(s: set<string>): (list: seq<string>)
    ensures Lists(s, list)
  {
    if s == {} then []
    else
      var x :| x in s;
      StringOrderIsLinear(s);
      var rest := Listing(s - {x});
      assert x in rest <==> x in Members(rest);
      InsertIncreasing(StringOrder(), x, rest, s);
      InsertMembers(StringOrder(), x, rest);
      Insert(StringOrder(), x, rest)
  }

  /** The one listing of a set in order. */
  method ListInOrder(s: set<string>) returns (list: seq<string>)
    ensures Lists(s, list) && list == Listing(s)
  {
    var rest := s;
    var found: seq<string> := [];
    WalkStarts(s);
    while rest != {}
      invariant Walk(s, rest, found)
      decreases |rest|
    {
      var x :| x in rest;
      WalkOn(s, rest, found, x);
      rest := rest - {x};
      found := found + [x];
    }
    WalkEnds(s, found);
    list := SortBy(StringOrder(), found);
    StringOrderIsLinear(s);
    SortByIncreasing(StringOrder(), found, s);
    SortByMembers(StringOrder(), found);
    ListingIsUnique(s, list, Listing(s));
  }

  // ---- The memo ----

  /** The verdict the artifact verifier gives: the remembered one of the path, if there is one. */
  function Verdict(h: Hash, completed: map<string, File>, memo: map<string, Option<DemotionReason>>, row: ArtifactRow): Option<DemotionReason> {
    if !WellFormedRow(row) then Some(ArtifactRecordInvalid)
    else if row.path in memo then memo[row.path]
    else CheckRow(h, completed, row)
  }

  function Remember(h: Hash, completed: map<string, File>, memo: map<string, Option<DemotionReason>>, row: ArtifactRow): map<string, Option<DemotionReason>> {
    if !WellFormedRow(row) || row.path in memo then memo else memo[row.path := CheckRow(h, completed, row)]
  }

  /** Two rows of one file both state its length or both state another. */
  predicate MeasureAlike(completed: map<string, File>, a: ArtifactRow, b: ArtifactRow) {
    WellFormedRow(a) && WellFormedRow(b) && a.path == b.path && a.blake3 in completed && completed[a.blake3].Regular? ==>
      (a.byteLength == |completed[a.blake3].bytes| <==> b.byteLength == |completed[a.blake3].bytes|)
  }

  /** Rows that share a file measure it alike. */
  ghost predicate RowsAgree(completed: map<string, File>, db: Database) {
    forall a, b :: a in db.artifacts && b in db.artifacts ==> MeasureAlike(completed, db.artifacts[a], db.artifacts[b])
  }

  /** The memo answers as if every row were checked anew. */
  ghost predicate Faithful(h: Hash, completed: map<string, File>, db: Database, memo: map<string, Option<DemotionReason>>) {
    forall id :: id in db.artifacts ==> Verdict(h, completed, memo, db.artifacts[id]) == CheckRow(h, completed, db.artifacts[id])
  }

  lemma RememberIsFaithful(h: Hash, completed: map<string, File>, db: Database, memo: map<string, Option<DemotionReason>>, id: string)
    requires RowsAgree(completed, db) && Faithful(h, completed, db, memo) && id in db.artifacts
    ensures Faithful(h, completed, db, Remember(h, completed, memo, db.artifacts[id]))
  {
    var row := db.artifacts[id];
    forall k | k in db.artifacts
      ensures Verdict(h, completed, Remember(h, completed, memo, row), db.artifacts[k]) == CheckRow(h, completed, db.artifacts[k])
    {
      assert MeasureAlike(completed, row, db.artifacts[k]);
      if db.artifacts[k].path == row.path { PathsDiffer(db.artifacts[k].blake3, row.blake3); }
    }
  }

  /** The artifact verifier, having met row `first` alone, answers for `second` as a check of its own would. */
  ghost predicate AnswersRight(h: Hash, completed: map<string, File>, first: ArtifactRow, second: ArtifactRow) {
    Verdict(h, completed, Remember(h, completed, map[], first), second) == CheckRow(h, completed, second)
  }

  /** When exactly the memo errs: a second row of one file gets the verdict of its own check if and only if
      both lengths match the file, or neither does, or there is no regular file to measure. */
  lemma SharedPathVerdict(h: Hash, completed: map<string, File>, first: ArtifactRow, second: ArtifactRow)
    ensures AnswersRight(h, completed, first, second) <==> MeasureAlike(completed, first, second)
  {
    PathsDiffer(first.blake3, second.blake3);
  }

  /** So the memo is right whichever row it meets first exactly on tables whose rows agree. */
  lemma MemoIsRightIffRowsAgree(h: Hash, completed: map<string, File>, db: Database)
    ensures (forall a, b :: a in db.artifacts && b in db.artifacts ==>
               AnswersRight(h, completed, db.artifacts[a], db.artifacts[b])) <==> RowsAgree(completed, db)
  {
    hide AnswersRight, MeasureAlike;
    forall a, b | a in db.artifacts && b in db.artifacts
      ensures AnswersRight(h, completed, db.artifacts[a], db.artifacts[b]) <==>
              MeasureAlike(completed, db.artifacts[a], db.artifacts[b])
    {
      SharedPathVerdict(h, completed, db.artifacts[a], db.artifacts[b]);
    }
  }

  // ---- The tables after resume ----

  /** With every demotion right, resume yields exactly the specified tables. */
  lemma ResumedExactly(h: Hash, completed: map<string, File>, db: Database, demoted: set<string>, t: string)
    requires demoted == (set x | x in CommittedTasks(db) && !Verifies(h, completed, db, x)) && t in db.tasks
    ensures var r := ResumedDb(db, demoted);
            && r.tasks.Keys == db.tasks.Keys
            && (CommittedIn(r, t) <==> Verifies(h, completed, db, t))
            && (CommittedIn(r, t) ==> r.tasks[t] == db.tasks[t])
            && r.tasks[t].dependsOn == db.tasks[t].dependsOn && (!CommittedIn(db, t) ==> r.tasks[t].output == db.tasks[t].output)
            && (forall id :: id in r.artifacts ==> id in db.artifacts)
            && (!CommittedIn(r, t) ==>
                  r.tasks[t].status == Some(if forall d :: d in db.tasks[t].dependsOn ==> CommittedIn(r, d) then Ready else Planned))
            && (CommittedIn(db, t) && !CommittedIn(r, t) ==>
                  r.tasks[t].output.None? && forall id :: id in r.artifacts ==> r.artifacts[id].taskId != t)
            && (!(CommittedIn(db, t) && !CommittedIn(r, t)) ==>
                  forall id :: id in db.artifacts && db.artifacts[id].taskId == t ==> id in r.artifacts && r.artifacts[id] == db.artifacts[id])
  {
    var kept := CommittedTasks(db) - demoted;
    var r := ResumedDb(db, demoted);
    forall d ensures CommittedIn(r, d) <==> d in kept {}
  }

  /** Artifact rows belong to committed tasks, as every operation of the journal leaves it. */
  ghost predicate RowsOwned(db: Database) {
    forall id :: id in db.artifacts ==> CommittedIn(db, db.artifacts[id].taskId)
  }

  function Referenced(db: Database): set<string> {
    set id | id in db.artifacts :: db.artifacts[id].path
  }

  /** The completed directory once files no row references are gone. */
  function KeptFiles(completed: map<string, File>, db: Database): map<string, File> {
    map f | f in completed && CompletedPath(f) in Referenced(db) :: completed[f]
  }

  /** After resume every row names a valid completed blob, and every completed file has a row. */
  lemma CompletedIsReferenced(h: Hash, completed: map<string, File>, db: Database, demoted: set<string>)
    requires RowsOwned(db)
    requires demoted == set x | x in CommittedTasks(db) && !Verifies(h, completed, db, x)
    ensures var r := ResumedDb(db, demoted);
            var files := KeptFiles(completed, r);
            && (forall id :: id in r.artifacts ==> CheckRow(h, files, r.artifacts[id]).None?)
            && (forall f :: f in files <==> exists id :: id in r.artifacts && r.artifacts[id].blake3 == f)
  {
    var r := ResumedDb(db, demoted);
    var files := KeptFiles(completed, r);
    forall id | id in r.artifacts ensures CheckRow(h, files, r.artifacts[id]).None? {
      assert CommittedIn(db, db.artifacts[id].taskId);
      assert CheckRow(h, completed, r.artifacts[id]).None?;
      assert r.artifacts[id].path in Referenced(r);
    }
    forall f ensures f in files <==> exists id :: id in r.artifacts && r.artifacts[id].blake3 == f {
      if f in files {
        var id :| id in r.artifacts && r.artifacts[id].path == CompletedPath(f);
        assert CheckRow(h, files, r.artifacts[id]).None?;
        PathsDiffer(r.artifacts[id].blake3, f);
      }
      if id :| id in r.artifacts && r.artifacts[id].blake3 == f {
        assert CheckRow(h, files, r.artifacts[id]).None?;
      }
    }
  }

  /** Resuming again changes nothing: no task fails, no row changes, no file goes. */
  lemma ResumeIsIdempotent(h: Hash, completed: map<string, File>, db: Database, demoted: set<string>)
    requires RowsOwned(db)
    requires demoted == set x | x in CommittedTasks(db) && !Verifies(h, completed, db, x)
    ensures var r := ResumedDb(db, demoted);
            var files := KeptFiles(completed, r);
            && RowsOwned(r)
            && (forall t :: t in CommittedTasks(r) ==> Verifies(h, files, r, t))
            && ResumedDb(r, {}) == r && KeptFiles(files, r) == files
  {
    var r := ResumedDb(db, demoted);
    var files := KeptFiles(completed, r);
    hide CheckRow, CheckBlob, KeptFiles, ResumedDb, RowsOwned, Verifies;
    CompletedIsReferenced(h, completed, db, demoted);
    NothingMoreToReset(db, demoted);
    KeptAgain(completed, r);
    ResumedOwned(db, demoted);
    forall t | t in CommittedTasks(r) ensures Verifies(h, files, r, t) {
      VerifiesAgain(h, completed, files, db, demoted, t);
    }
  }

  lemma ResumedOwned(db: Database, demoted: set<string>)
    requires RowsOwned(db)
    ensures RowsOwned(ResumedDb(db, demoted))
  {
    assert CommittedTasks(ResumedDb(db, demoted)) == CommittedTasks(db) - demoted;
  }

  lemma VerifiesAgain(h: Hash, completed: map<string, File>, files: map<string, File>, db: Database, demoted: set<string>, t: string)
    requires demoted == set x | x in CommittedTasks(db) && !Verifies(h, completed, db, x)
    requires CommittedIn(ResumedDb(db, demoted), t)
    requires forall id :: id in ResumedDb(db, demoted).artifacts ==> CheckRow(h, files, ResumedDb(db, demoted).artifacts[id]).None?
    ensures Verifies(h, files, ResumedDb(db, demoted), t)
  {
    hide CheckRow;
    ResumedExactly(h, completed, db, demoted, t);
  }

  lemma KeptAgain(completed: map<string, File>, db: Database)
    ensures KeptFiles(KeptFiles(completed, db), db) == KeptFiles(completed, db)
  {
  }

  lemma NothingMoreToReset(db: Database, demoted: set<string>)
    ensures ResumedDb(ResumedDb(db, demoted), {}) == ResumedDb(db, demoted)
  {
    var r := ResumedDb(db, demoted);
    assert CommittedTasks(r) == CommittedTasks(db) - demoted;
    assert ResumedDb(r, {}).tasks == r.tasks;
    assert ResumedDb(r, {}).artifacts == r.artifacts;
  }

  /** On a journal only its own operations touched, resume demotes nothing: no committed work is lost. */
  lemma SafeKeepsEverything(h: Hash, d: Disk, t: string)
    requires Safe(h, d) && CommittedIn(d.db, t)
    ensures Verifies(h, d.completed, d.db, t)
  {
    assert TaskSafe(d.db, t);
    forall id | id in d.db.artifacts && d.db.artifacts[id].taskId == t
      ensures CheckRow(h, d.completed, d.db.artifacts[id]).None?
    {
      assert RowSafe(h, d.completed, d.db, id);
    }
  }

  lemma SafeRowsAgree(h: Hash, d: Disk)
    requires Safe(h, d)
    ensures RowsAgree(d.completed, d.db) && RowsOwned(d.db)
  {
    forall a, b | a in d.db.artifacts && b in d.db.artifacts
      ensures MeasureAlike(d.completed, d.db.artifacts[a], d.db.artifacts[b])
    {
      assert RowSafe(h, d.completed, d.db, a) && RowSafe(h, d.completed, d.db, b);
      PathsDiffer(d.db.artifacts[a].blake3, d.db.artifacts[b].blake3);
    }
    forall id | id in d.db.artifacts ensures CommittedIn(d.db, d.db.artifacts[id].taskId) {
      assert RowSafe(h, d.completed, d.db, id);
    }
  }
}
