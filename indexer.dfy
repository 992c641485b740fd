/**
 * The indexer (internal/indexer/indexer.go): each scanned `.eml` file is
 * checked against the store, parsed, measured and inserted with its
 * attachments, and the per-file statuses are counted into an `IndexResult`.
 *
 * What the file system, the parser and the database driver do for a file is
 * an environment: a function from the path to the outcome of each of those
 * calls.  The worker pool is modelled by the order in which results reach the
 * collecting loop, which is any rearrangement of the scanned files.
 */
module Indexer {
  import opened Wrappers
  import opened Text
  import opened Records
  import opened Eml
  import opened Store
  import Conversations

  /** `indexStatus`. */
  datatype Status = Indexed | Skipped | Failed

  /** What happens to one file outside the model: whether the existence check
      fails, the parse result (None: a parse error), the file size (None: stat
      fails), whether the email insert fails, and the positions of the
      attachments whose insert fails. */
  datatype FileEnv = FileEnv(
    existsFails: bool,
    parsed: Option<ParsedEmail>,
    size: Option<int>,
    insertFails: bool,
    attachmentFails: set<nat>)

  type Env = string -> FileEnv

  /** Times are counted from Go's zero `time.Time`, so the zero value is 0. */
  const ZeroTime: int := 0

  /** The status `processFile` ends with, given whether the path is stored. */
  function Outcome(stored: bool, f: FileEnv): Status {
    if f.existsFails then Failed
    else if stored then Skipped
    else if f.parsed.None? || f.size.None? || f.insertFails then Failed
    else Indexed
  }

  /** The row `processFile` inserts.  Threading columns and the body preview
      are left at their zero values; the date is NULL for the zero time. */
  function EmailRecord(path: string, p: ParsedEmail, size: int): Email {
    Email(0, path, p.messageId, "", "", p.subject, p.sender, p.senderName,
      Join(p.recipients, ", "), if p.date == ZeroTime then None else Some(p.date),
      "", |p.attachments| > 0, |p.attachments|, size)
  }

  function AttachmentRow(emailId: int, a: ParsedAttachment): Attachment {
    Attachment(0, emailId, a.filename, a.contentType, a.size)
  }

  /** The attachment rows that get stored: one per parsed attachment, in order,
      except those whose insert fails. */
  function KeptRows(atts: seq<ParsedAttachment>, emailId: int, fails: set<nat>): (r: seq<Attachment>)
    ensures |r| <= |atts|
    ensures forall k :: 0 <= k < |r| ==> r[k].emailId == emailId
    ensures fails == {} ==> |r| == |atts|
    decreases |atts|
  {
    if atts == [] then []
    else
      var n := |atts| - 1;
      KeptRows(atts[..n], emailId, fails) + (if n in fails then [] else [AttachmentRow(emailId, atts[n])])
  }

  lemma StampedSnoc(batch: seq<Attachment>, a: Attachment, first: int)
    ensures StampedAttachments(batch + [a], first) == StampedAttachments(batch, first) + [a.(id := first + |batch|)]
  {
  }

  /** One scanned file and its status (`indexResult`). */
  datatype FileResult = FileResult(path: string, status: Status)

  /** The statuses the files get when each is decided against `table`. */
  function Outcomes(table: seq<Email>, env: Env, paths: seq<string>): (r: seq<FileResult>)
    ensures |r| == |paths|
  {
    seq(|paths|, i requires 0 <= i < |paths| => FileResult(paths[i], Outcome(PathStored(table, paths[i]), env(paths[i]))))
  }

  lemma OutcomesAppend(table: seq<Email>, env: Env, a: seq<string>, b: seq<string>)
    ensures Outcomes(table, env, a + b) == Outcomes(table, env, a) + Outcomes(table, env, b)
  {
  }

  /** `IndexResult`. */
  datatype IndexResult = IndexResult(totalFound: int, newIndexed: int, skipped: int, failed: int, failedFiles: seq<string>)

  /** One round of the collecting `switch`. */
  function Count(r: IndexResult, res: FileResult): IndexResult {
    match res.status
    case Indexed => r.(newIndexed := r.newIndexed + 1)
    case Skipped => r.(skipped := r.skipped + 1)
    case Failed => r.(failed := r.failed + 1, failedFiles := r.failedFiles + [res.path])
  }

  /** The result after collecting `rs` in order: every file is counted under
      exactly one status, and the failed files are listed once each. */
  function Tally(total: int, rs: seq<FileResult>): (r: IndexResult)
    ensures r.totalFound == total
    ensures r.newIndexed >= 0 && r.skipped >= 0 && r.failed >= 0
    ensures r.newIndexed + r.skipped + r.failed == |rs|
    ensures |r.failedFiles| == r.failed
    decreases |rs|
  {
    if rs == [] then IndexResult(total, 0, 0, 0, [])
    else Count(Tally(total, rs[..|rs| - 1]), rs[|rs| - 1])
  }

  /** The failed files are exactly the paths collected with status Failed. */
  lemma {:induction false} TallyFailedFiles(total: int, rs: seq<FileResult>)
    ensures forall p :: p in Tally(total, rs).failedFiles <==> FileResult(p, Failed) in rs
    decreases |rs|
  {
    if rs != [] {
      var init := rs[..|rs| - 1];
      TallyFailedFiles(total, init);
      assert rs == init + [rs[|rs| - 1]];
    }
  }

  /** Counts are equal and the failed files are the same up to order. */
  predicate SameCounts(a: IndexResult, b: IndexResult) {
    a.totalFound == b.totalFound && a.newIndexed == b.newIndexed && a.skipped == b.skipped &&
    a.failed == b.failed && multiset(a.failedFiles) == multiset(b.failedFiles)
  }

  /** Two results added up: the counts of both, the failed files of the first
      followed by those of the second. */
  function Plus(a: IndexResult, b: IndexResult): IndexResult {
    IndexResult(a.totalFound, a.newIndexed + b.newIndexed, a.skipped + b.skipped, a.failed + b.failed,
      a.failedFiles + b.failedFiles)
  }

  lemma PlusSwap(a: IndexResult, x: IndexResult, b: IndexResult)
    ensures SameCounts(Plus(Plus(a, b), x), Plus(Plus(a, x), b))
  {
    assert Plus(Plus(a, b), x).failedFiles == a.failedFiles + b.failedFiles + x.failedFiles;
    assert Plus(Plus(a, x), b).failedFiles == a.failedFiles + x.failedFiles + b.failedFiles;
  }

  lemma PlusSame(a: IndexResult, b: IndexResult, x: IndexResult)
    requires SameCounts(a, b)
    ensures SameCounts(Plus(a, x), Plus(b, x))
  {
  }

  /** Collecting two batches one after the other adds their results up. */
  lemma {:induction false} TallyAppend(total: int, a: seq<FileResult>, b: seq<FileResult>)
    ensures Tally(total, a + b) == Plus(Tally(total, a), Tally(total, b))
    decreases |b|
  {
    if b == [] {
      assert a + b == a;
    } else {
      var init := b[..|b| - 1];
      assert (a + b)[..|a + b| - 1] == a + init;
      TallyAppend(total, a, init);
    }
  }

  /** Removing one element from the middle of a sequence. */
  lemma RemoveAt<T>(a: seq<T>, b: seq<T>, j: nat)
    requires j < |b| && multiset(a) + multiset{b[j]} == multiset(b)
    ensures multiset(a) == multiset(b[..j] + b[j + 1..])
  {
    assert b == b[..j] + [b[j]] + b[j + 1..];
    assert multiset(b) == multiset(b[..j]) + multiset{b[j]} + multiset(b[j + 1..]);
    assert multiset(b[..j] + b[j + 1..]) == multiset(b[..j]) + multiset(b[j + 1..]);
    var rest := multiset(b[..j]) + multiset(b[j + 1..]);
    assert forall y :: multiset(a)[y] == rest[y] by {
      forall y
        ensures multiset(a)[y] == rest[y]
      {
        assert (multiset(a) + multiset{b[j]})[y] == (rest + multiset{b[j]})[y];
      }
    }
  }

  lemma TallySplitAt(total: int, b: seq<FileResult>, j: nat)
    requires j < |b|
    ensures Tally(total, b) == Plus(Plus(Tally(total, b[..j]), Tally(total, [b[j]])), Tally(total, b[j + 1..]))
    ensures Tally(total, b[..j] + b[j + 1..]) == Plus(Tally(total, b[..j]), Tally(total, b[j + 1..]))
  {
    var b1, x, b2 := b[..j], [b[j]], b[j + 1..];
    assert b == b1 + x + b2;
    TallyAppend(total, b1 + x, b2);
    TallyAppend(total, b1, x);
    TallyAppend(total, b1, b2);
  }

  /** The result does not depend on the order in which the statuses are collected. */
  lemma {:induction false} TallyRearranged(total: int, a: seq<FileResult>, b: seq<FileResult>)
    requires multiset(a) == multiset(b)
    ensures SameCounts(Tally(total, a), Tally(total, b))
    decreases |a|
  {
    if a == [] {
      assert b == [];
    } else {
      var n := |a| - 1;
      var x := a[n];
      assert a == a[..n] + [x];
      assert x in multiset(b);
      var j :| 0 <= j < |b| && b[j] == x;
      RemoveAt(a[..n], b, j);
      var b1, b2 := b[..j], b[j + 1..];
      TallyRearranged(total, a[..n], b1 + b2);
      TallyAppend(total, a[..n], [x]);
      TallySplitAt(total, b, j);
      var tx := Tally(total, [x]);
      PlusSame(Tally(total, a[..n]), Tally(total, b1 + b2), tx);
      PlusSwap(Tally(total, b1), tx, Tally(total, b2));
    }
  }

  /** Rearranging the files rearranges their statuses. */
  lemma {:induction false} OutcomesRearranged(table: seq<Email>, env: Env, a: seq<string>, b: seq<string>)
    requires multiset(a) == multiset(b)
    ensures multiset(Outcomes(table, env, a)) == multiset(Outcomes(table, env, b))
    decreases |a|
  {
    if a == [] {
      assert b == [];
    } else {
      var n := |a| - 1;
      var x := a[n];
      assert a == a[..n] + [x];
      assert x in multiset(b);
      var j :| 0 <= j < |b| && b[j] == x;
      RemoveAt(a[..n], b, j);
      var b1, b2 := b[..j], b[j + 1..];
      OutcomesRearranged(table, env, a[..n], b1 + b2);
      assert b == b1 + [x] + b2;
      OutcomesAppend(table, env, a[..n], [x]);
      OutcomesAppend(table, env, b1 + [x], b2);
      OutcomesAppend(table, env, b1, [x]);
      OutcomesAppend(table, env, b1, b2);
    }
  }

  /** The counts do not depend on the order in which the files are processed. */
  lemma TallyAnyOrder(table: seq<Email>, env: Env, total: int, a: seq<string>, b: seq<string>)
    requires multiset(a) == multiset(b)
    ensures SameCounts(Tally(total, Outcomes(table, env, a)), Tally(total, Outcomes(table, env, b)))
  {
    OutcomesRearranged(table, env, a, b);
    TallyRearranged(total, Outcomes(table, env, a), Outcomes(table, env, b));
  }

  /** A rearrangement of a list without repeats has no repeats. */
  lemma DistinctRearranged(a: seq<string>, b: seq<string>)
    requires multiset(a) == multiset(b) && Conversations.NoDup(a)
    ensures Conversations.NoDup(b)
  {
    forall i, j | 0 <= i < j < |b|
      ensures b[i] != b[j]
    {
      if b[i] == b[j] {
        AtLeastTwice(b, i, j);
        AtMostOnce(a, b[i]);
        assert false;
      }
    }
  }

  lemma AtLeastTwice(s: seq<string>, i: nat, j: nat)
    requires i < j < |s| && s[i] == s[j]
    ensures multiset(s)[s[i]] >= 2
  {
    assert s == s[..i] + [s[i]] + s[i + 1..j] + [s[j]] + s[j + 1..];
  }

  lemma {:induction false} AtMostOnce(s: seq<string>, x: string)
    requires Conversations.NoDup(s)
    ensures multiset(s)[x] <= 1
    decreases |s|
  {
    if s != [] {
      var init := s[..|s| - 1];
      assert s == init + [s[|s| - 1]];
      AtMostOnce(init, x);
      if s[|s| - 1] == x {
        assert x !in init;
      }
    }
  }

  /** What a second run over the same files, after a first run has stored its
      Indexed files, reports for each file: nothing new; every file that was
      indexed or skipped is now skipped, and every failure fails again. */
  lemma RerunOutcome(stored: bool, f: FileEnv)
    ensures Outcome(stored || Outcome(stored, f) == Indexed, f) == (if Outcome(stored, f) == Failed then Failed else Skipped)
  {
  }

  lemma {:induction false} SecondRun(before: seq<Email>, after: seq<Email>, env: Env, total: int, files: seq<string>)
    requires forall p :: PathStored(after, p) <==> PathStored(before, p) || FileResult(p, Indexed) in Outcomes(before, env, files)
    ensures Tally(total, Outcomes(after, env, files)).newIndexed == 0
    ensures Tally(total, Outcomes(after, env, files)).skipped ==
      Tally(total, Outcomes(before, env, files)).newIndexed + Tally(total, Outcomes(before, env, files)).skipped
    ensures Tally(total, Outcomes(after, env, files)).failedFiles == Tally(total, Outcomes(before, env, files)).failedFiles
  {
    SecondRunFrom(before, after, env, total, files, files);
  }

  lemma {:induction false} SecondRunFrom(before: seq<Email>, after: seq<Email>, env: Env, total: int, all: seq<string>, files: seq<string>)
    requires forall p :: PathStored(after, p) <==> PathStored(before, p) || FileResult(p, Indexed) in Outcomes(before, env, all)
    requires forall p :: p in files ==> p in all
    ensures Tally(total, Outcomes(after, env, files)).newIndexed == 0
    ensures Tally(total, Outcomes(after, env, files)).skipped ==
      Tally(total, Outcomes(before, env, files)).newIndexed + Tally(total, Outcomes(before, env, files)).skipped
    ensures Tally(total, Outcomes(after, env, files)).failedFiles == Tally(total, Outcomes(before, env, files)).failedFiles
    decreases |files|
  {
    if files != [] {
      var n := |files| - 1;
      var p := files[n];
      assert files == files[..n] + [p];
      SecondRunFrom(before, after, env, total, all, files[..n]);
      OutcomesAppend(before, env, files[..n], [p]);
      OutcomesAppend(after, env, files[..n], [p]);
      TallyAppend(total, Outcomes(before, env, files[..n]), Outcomes(before, env, [p]));
      TallyAppend(total, Outcomes(after, env, files[..n]), Outcomes(after, env, [p]));
      RerunStep(before, after, env, total, all, p);
    }
  }

  /** `SecondRunFrom` for one file. */
  lemma RerunStep(before: seq<Email>, after: seq<Email>, env: Env, total: int, all: seq<string>, p: string)
    requires forall p :: PathStored(after, p) <==> PathStored(before, p) || FileResult(p, Indexed) in Outcomes(before, env, all)
    requires p in all
    ensures Tally(total, Outcomes(after, env, [p])).newIndexed == 0
    ensures Tally(total, Outcomes(after, env, [p])).skipped ==
      Tally(total, Outcomes(before, env, [p])).newIndexed + Tally(total, Outcomes(before, env, [p])).skipped
    ensures Tally(total, Outcomes(after, env, [p])).failedFiles == Tally(total, Outcomes(before, env, [p])).failedFiles
  {
    var stored := PathStored(before, p);
    var i :| 0 <= i < |all| && all[i] == p;
    assert Outcomes(before, env, all)[i] == FileResult(p, Outcome(stored, env(p)));
    assert FileResult(p, Indexed) in Outcomes(before, env, all) <==> Outcome(stored, env(p)) == Indexed;
    RerunOutcome(stored, env(p));
    var ob, oa := Outcomes(before, env, [p]), Outcomes(after, env, [p]);
    assert ob == [FileResult(p, Outcome(stored, env(p)))];
    assert oa == [FileResult(p, Outcome(PathStored(after, p), env(p)))];
    assert ob[..0] == oa[..0] == [];
  }

  /** One progress callback: `progress(current, total, filePath)`. */
  datatype ProgressCall = ProgressCall(current: int, total: int, filePath: string)

  /** The collecting loop of `indexAllConcurrent` and `IndexWithProgress`: the
      result is the tally of the statuses in arrival order, and when a callback
      is given it is called once per file with current = 1, 2, ..., total. */
  method CollectResults(total: int, rs: seq<FileResult>, reporting: bool) returns (r: IndexResult, calls: seq<ProgressCall>)
    ensures r == Tally(total, rs)
    ensures reporting ==> (|calls| == |rs| &&
      forall i :: 0 <= i < |rs| ==> calls[i] == ProgressCall(i + 1, total, rs[i].path))
    ensures !reporting ==> calls == []
  {
    r := IndexResult(total, 0, 0, 0, []);
    calls := [];
    var processed := 0;
    while processed < |rs|
      invariant processed <= |rs|
      invariant r == Tally(total, rs[..processed])
      invariant reporting ==> (|calls| == processed &&
        forall i :: 0 <= i < processed ==> calls[i] == ProgressCall(i + 1, total, rs[i].path))
      invariant !reporting ==> calls == []
    {
      var res := rs[processed];
      assert rs[..processed + 1][..processed] == rs[..processed];
      processed := processed + 1;
      if reporting {
        calls := calls + [ProgressCall(processed, total, res.path)];
      }
      match res.status {
        case Indexed =>
          r := r.(newIndexed := r.newIndexed + 1);
        case Skipped =>
          r := r.(skipped := r.skipped + 1);
        case Failed =>
          r := r.(failed := r.failed + 1, failedFiles := r.failedFiles + [res.path]);
      }
    }
    assert rs[..processed] == rs;
  }

  /** Why an indexing run returns no result. */
  datatype IndexError = ScanFailed

  lemma StoredAfterInsert(table: seq<Email>, e: Email, p: string)
    ensures PathStored(table + [e], p) <==> PathStored(table, p) || e.filePath == p
  {
    if PathStored(table + [e], p) && !PathStored(table, p) {
      var k :| 0 <= k < |table| + 1 && (table + [e])[k].filePath == p;
      assert k == |table|;
    }
    if PathStored(table, p) {
      var k :| 0 <= k < |table| && table[k].filePath == p;
      assert (table + [e])[k].filePath == p;
    }
    if e.filePath == p {
      assert (table + [e])[|table|].filePath == p;
    }
  }

  /** The stored paths after one more file: those before, plus the file when it
      was indexed. */
  lemma StoredStep(table: seq<Email>, before: seq<Email>, after: seq<Email>, rs: seq<FileResult>, path: string, status: Status)
    requires forall p :: PathStored(before, p) <==> PathStored(table, p) || FileResult(p, Indexed) in rs
    requires status == Indexed ==> |after| > 0 && after == before + [after[|after| - 1]] && after[|after| - 1].filePath == path
    requires status != Indexed ==> after == before
    ensures forall p :: PathStored(after, p) <==> PathStored(table, p) || FileResult(p, Indexed) in rs + [FileResult(path, status)]
  {
    forall p
      ensures PathStored(after, p) <==> PathStored(table, p) || FileResult(p, Indexed) in rs + [FileResult(path, status)]
    {
      if status == Indexed {
        StoredAfterInsert(before, after[|after| - 1], p);
      }
    }
  }

  /** A file not yet processed has no status among those collected so far. */
  lemma NotYetSeen(table: seq<Email>, env: Env, paths: seq<string>, i: nat)
    requires i < |paths| && Conversations.NoDup(paths)
    ensures FileResult(paths[i], Indexed) !in Outcomes(table, env, paths[..i])
  {
    var rs := Outcomes(table, env, paths[..i]);
    forall k | 0 <= k < |rs|
      ensures rs[k].path != paths[i]
    {
      assert rs[k].path == paths[k];
    }
  }

  /** Membership in `Outcomes` depends only on which paths are listed. */
  lemma InOutcomes(table: seq<Email>, env: Env, a: seq<string>, b: seq<string>, p: string)
    requires multiset(a) == multiset(b)
    ensures FileResult(p, Indexed) in Outcomes(table, env, a) <==> FileResult(p, Indexed) in Outcomes(table, env, b)
  {
    var oa, ob := Outcomes(table, env, a), Outcomes(table, env, b);
    if FileResult(p, Indexed) in oa {
      var i :| 0 <= i < |a| && oa[i] == FileResult(p, Indexed);
      assert a[i] in multiset(b);
      var j :| 0 <= j < |b| && b[j] == a[i];
      assert ob[j] == FileResult(p, Indexed);
    }
    if FileResult(p, Indexed) in ob {
      var j :| 0 <= j < |b| && ob[j] == FileResult(p, Indexed);
      assert b[j] in multiset(a);
      var i :| 0 <= i < |a| && a[i] == b[j];
      assert oa[i] == FileResult(p, Indexed);
    }
  }

  /** `Indexer`: the store, the scanner's root, the verbosity flag and the
      number of workers. */
  class Indexer {
    var db: DB
    var emailsPath: string
    var verbose: bool
    var concurrency: int

    /** `NewIndexer`: two workers per CPU. */
    constructor (database: DB, emailsPath: string, verbose: bool, numCPU: int)
      requires numCPU >= 1
      ensures db == database && this.emailsPath == emailsPath && this.verbose == verbose
      ensures concurrency == 2 * numCPU
    {
      db := database;
      this.emailsPath := emailsPath;
      this.verbose := verbose;
      concurrency := numCPU * 2;
    }

    /** `WithConcurrency`: at least one worker; any positive count is kept. */
    method WithConcurrency(workers: int)
      modifies this
      ensures concurrency >= 1
      ensures workers >= 1 ==> concurrency == workers
      ensures workers < 1 ==> concurrency == 1
      ensures db == old(db) && emailsPath == old(emailsPath) && verbose == old(verbose)
    {
      var w := workers;
      if w < 1 {
        w := 1;
      }
      concurrency := w;
    }

    /** The attachment loop of `processFile`: each attachment is inserted for
        `emailId`; a failed insert is skipped and the loop goes on. */
    method InsertAttachments(emailId: int, atts: seq<ParsedAttachment>, fails: set<nat>)
      requires db.Valid()
      modifies db
      ensures db.Valid()
      ensures db.emailsPath == old(db.emailsPath) && db.emails == old(db.emails)
      ensures db.nextEmailId == old(db.nextEmailId)
      ensures db.attachments == old(db.attachments) +
        StampedAttachments(KeptRows(atts, emailId, fails), old(db.nextAttachmentId))
      ensures db.nextAttachmentId == old(db.nextAttachmentId) + |KeptRows(atts, emailId, fails)|
    {
      var i := 0;
      while i < |atts|
        invariant i <= |atts|
        invariant db.Valid()
        invariant db.emailsPath == old(db.emailsPath) && db.emails == old(db.emails)
        invariant db.nextEmailId == old(db.nextEmailId)
        invariant db.attachments == old(db.attachments) +
          StampedAttachments(KeptRows(atts[..i], emailId, fails), old(db.nextAttachmentId))
        invariant db.nextAttachmentId == old(db.nextAttachmentId) + |KeptRows(atts[..i], emailId, fails)|
      {
        var kept := KeptRows(atts[..i], emailId, fails);
        assert atts[..i + 1][..i] == atts[..i];
        var row := AttachmentRow(emailId, atts[i]);
        var r := db.InsertAttachment(row, i in fails);
        if r.Ok? {
          StampedSnoc(kept, row, old(db.nextAttachmentId));
        }
        i := i + 1;
      }
      assert atts[..i] == atts;
    }

    /** `processFile`: Failed when the existence check, the parse, the stat or
        the insert fails; Skipped when the path is already stored; otherwise
        the email row and its attachments are stored and the file is Indexed,
        whatever happens to the attachment inserts. */
    method ProcessFile(path: string, env: Env) returns (status: Status)
      requires db.Valid()
      modifies db
      ensures db.Valid() && db.emailsPath == old(db.emailsPath)
      ensures status == Outcome(PathStored(old(db.emails), path), env(path))
      ensures status != Indexed ==> (db.emails == old(db.emails) && db.attachments == old(db.attachments) &&
        db.nextEmailId == old(db.nextEmailId) && db.nextAttachmentId == old(db.nextAttachmentId))
      ensures status == Indexed ==>
        var p, id := env(path).parsed.value, old(db.nextEmailId);
        db.emails == old(db.emails) + [EmailRecord(path, p, env(path).size.value).(id := id)] &&
        db.attachments == old(db.attachments) +
          StampedAttachments(KeptRows(p.attachments, id, env(path).attachmentFails), old(db.nextAttachmentId))
      ensures status == Indexed ==>
        var e := db.emails[|db.emails| - 1];
        e.filePath == path && e.attachmentCount == |env(path).parsed.value.attachments| &&
        (e.hasAttachments <==> e.attachmentCount > 0)
    {
      var f := env(path);
      var found := db.EmailExists(path, f.existsFails);
      if found.Err? {
        return Failed;
      }
      if found.value {
        return Skipped;
      }
      if f.parsed.None? {
        return Failed;
      }
      var parsed := f.parsed.value;
      if f.size.None? {
        return Failed;
      }
      var email := EmailRecord(path, parsed, f.size.value);
      var id := db.InsertEmail(email, f.insertFails);
      if id.Err? {
        return Failed;
      }
      InsertAttachments(id.value, parsed.attachments, f.attachmentFails);
      return Indexed;
    }

    /** The workers: every file is processed once, in arrival order.  As the
        paths differ, each file is decided against the table as it was before
        the run, and afterwards exactly the Indexed paths have been added. */
    method ProcessAll(arrival: seq<string>, env: Env) returns (rs: seq<FileResult>)
      requires db.Valid() && Conversations.NoDup(arrival)
      modifies db
      ensures db.Valid() && db.emailsPath == old(db.emailsPath)
      ensures rs == Outcomes(old(db.emails), env, arrival)
      ensures forall p :: PathStored(db.emails, p) <==> PathStored(old(db.emails), p) || FileResult(p, Indexed) in rs
    {
      ghost var table := db.emails;
      rs := [];
      var i := 0;
      while i < |arrival|
        invariant i <= |arrival|
        invariant db.Valid() && db.emailsPath == old(db.emailsPath)
        invariant rs == Outcomes(table, env, arrival[..i])
        invariant forall p :: PathStored(db.emails, p) <==> PathStored(table, p) || FileResult(p, Indexed) in rs
      {
        var path := arrival[i];
        NotYetSeen(table, env, arrival, i);
        ghost var before := db.emails;
        var status := ProcessFile(path, env);
        StoredStep(table, before, db.emails, rs, path, status);
        rs := rs + [FileResult(path, status)];
        assert arrival[..i + 1] == arrival[..i] + [path];
        OutcomesAppend(table, env, arrival[..i], [path]);
        i := i + 1;
      }
      assert arrival[..i] == arrival;
    }

    /** `indexAllSequential`: the files in scan order, each counted under its
        status as soon as it is processed. */
    method IndexAllSequential(scan: Option<seq<string>>, env: Env) returns (r: Result<IndexResult, IndexError>)
      requires db.Valid()
      requires scan.Some? ==> Conversations.NoDup(scan.value)
      modifies db
      ensures db.Valid()
      ensures scan.None? ==> r == Err(ScanFailed) && db.emails == old(db.emails)
      ensures scan.Some? ==> r == Ok(Tally(|scan.value|, Outcomes(old(db.emails), env, scan.value)))
      ensures scan.Some? ==> forall p :: PathStored(db.emails, p) <==>
        PathStored(old(db.emails), p) || FileResult(p, Indexed) in Outcomes(old(db.emails), env, scan.value)
    {
      if scan.None? {
        return Err(ScanFailed);
      }
      var files := scan.value;
      ghost var table := db.emails;
      var result := IndexResult(|files|, 0, 0, 0, []);
      ghost var rs: seq<FileResult> := [];
      for i := 0 to |files|
        invariant db.Valid()
        invariant rs == Outcomes(table, env, files[..i])
        invariant result == Tally(|files|, rs)
        invariant forall p :: PathStored(db.emails, p) <==> PathStored(table, p) || FileResult(p, Indexed) in rs
      {
        var path := files[i];
        NotYetSeen(table, env, files, i);
        ghost var before := db.emails;
        var status := ProcessFile(path, env);
        StoredStep(table, before, db.emails, rs, path, status);
        result := Count(result, FileResult(path, status));
        assert (rs + [FileResult(path, status)])[..|rs|] == rs;
        assert Tally(|files|, rs + [FileResult(path, status)]) == result;
        rs := rs + [FileResult(path, status)];
        assert files[..i + 1] == files[..i] + [path];
        OutcomesAppend(table, env, files[..i], [path]);
      }
      assert files[..|files|] == files;
      return Ok(result);
    }

    /** `indexAllConcurrent`: the workers hand their results over in `arrival`
        order, any rearrangement of the scanned files.  The counts, the failed
        files (as a collection) and the stored paths are those of the scan
        order, so they are the same for every worker count. */
    method IndexAllConcurrent(scan: Option<seq<string>>, arrival: seq<string>, env: Env)
      returns (r: Result<IndexResult, IndexError>)
      requires db.Valid()
      requires scan.Some? ==> Conversations.NoDup(scan.value) && multiset(arrival) == multiset(scan.value)
      modifies db
      ensures db.Valid()
      ensures scan.None? ==> r == Err(ScanFailed) && db.emails == old(db.emails)
      ensures scan.Some? ==> r.Ok? && SameCounts(r.value, Tally(|scan.value|, Outcomes(old(db.emails), env, scan.value)))
      ensures scan.Some? ==> forall p :: PathStored(db.emails, p) <==>
        PathStored(old(db.emails), p) || FileResult(p, Indexed) in Outcomes(old(db.emails), env, scan.value)
    {
      var result, calls := IndexWithProgress(scan, arrival, env, false);
      return result;
    }

    /** `IndexWithProgress`: as `indexAllConcurrent`, and when a callback is
        given it is called once per file, in arrival order, with current =
        1, 2, ..., total and total = the number of scanned files. */
    method IndexWithProgress(scan: Option<seq<string>>, arrival: seq<string>, env: Env, reporting: bool)
      returns (r: Result<IndexResult, IndexError>, calls: seq<ProgressCall>)
      requires db.Valid()
      requires scan.Some? ==> Conversations.NoDup(scan.value) && multiset(arrival) == multiset(scan.value)
      modifies db
      ensures db.Valid()
      ensures scan.None? ==> r == Err(ScanFailed) && calls == [] && db.emails == old(db.emails)
      ensures scan.Some? ==> r.Ok? && SameCounts(r.value, Tally(|scan.value|, Outcomes(old(db.emails), env, scan.value)))
      ensures scan.Some? ==> forall p :: PathStored(db.emails, p) <==>
        PathStored(old(db.emails), p) || FileResult(p, Indexed) in Outcomes(old(db.emails), env, scan.value)
      ensures scan.Some? && reporting ==> (|calls| == |scan.value| == |arrival| &&
        forall i :: 0 <= i < |calls| ==> calls[i] == ProgressCall(i + 1, |scan.value|, arrival[i]))
      ensures !reporting ==> calls == []
    {
      if scan.None? {
        return Err(ScanFailed), [];
      }
      var files := scan.value;
      ghost var table := db.emails;
      assert |arrival| == |multiset(arrival)| == |files|;
      DistinctRearranged(files, arrival);
      var rs := ProcessAll(arrival, env);
      var result;
      result, calls := CollectResults(|files|, rs, reporting);
      TallyAnyOrder(table, env, |files|, arrival, files);
      forall p
        ensures FileResult(p, Indexed) in Outcomes(table, env, arrival) <==> FileResult(p, Indexed) in Outcomes(table, env, files)
      {
        InOutcomes(table, env, arrival, files, p);
      }
      return Ok(result), calls;
    }
  }
}
