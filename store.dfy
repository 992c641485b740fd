/**
 * The metadata store (internal/db/db.go, internal/db/emails.go) as a class
 * whose fields are the configured root and the two tables.  A statement or
 * commit that fails inside the database engine is a parameter: `fails` for a
 * single statement, a set of failing positions for a statement run in a loop.
 * A transaction works on a local copy of the table that is written back only
 * on commit, so a failure leaves every field as it was.
 */
module Store {
  import opened Wrappers
  import opened Records
  import opened Resolve
  import opened Eml
  import Recipients

  /** At most this many paths go into one `IN (...)` query. */
  const ChunkSize: nat := 500

  /** A row with this `file_path` is stored. */
  predicate PathStored(table: seq<Email>, path: string) {
    exists k :: 0 <= k < |table| && table[k].filePath == path
  }

  /** The UNIQUE constraint on `file_path`. */
  predicate DistinctPaths(table: seq<Email>) {
    forall i, j :: 0 <= i < j < |table| ==> table[i].filePath != table[j].filePath
  }

  /** AUTOINCREMENT: ids are positive, below the next id, and grow with rowid order. */
  predicate EmailIdsBelow(table: seq<Email>, next: int) {
    (forall i :: 0 <= i < |table| ==> 1 <= table[i].id < next) &&
    (forall i, j :: 0 <= i < j < |table| ==> table[i].id < table[j].id)
  }

  predicate AttachmentIdsBelow(atts: seq<Attachment>, next: int) {
    (forall i :: 0 <= i < |atts| ==> 1 <= atts[i].id < next) &&
    (forall i, j :: 0 <= i < j < |atts| ==> atts[i].id < atts[j].id)
  }

  /** The rows an insert of `batch` adds, numbered from `first` on. */
  function Stamped(batch: seq<Email>, first: int): seq<Email> {
    seq(|batch|, k requires 0 <= k < |batch| => batch[k].(id := first + k))
  }

  function StampedAttachments(batch: seq<Attachment>, first: int): seq<Attachment> {
    seq(|batch|, k requires 0 <= k < |batch| => batch[k].(id := first + k))
  }

  /** No row of `batch` collides with a stored path or with an earlier row of the batch. */
  predicate Insertable(table: seq<Email>, batch: seq<Email>) {
    forall k :: 0 <= k < |batch| ==>
      !PathStored(table, batch[k].filePath) &&
      forall j :: 0 <= j < k ==> batch[j].filePath != batch[k].filePath
  }

  /** The ids named in a delete batch. */
  function IdSet(ids: seq<int>): set<int> {
    set id | id in ids
  }

  /** The rows whose id is not in `ids`, in table order. */
  function WithoutIds(table: seq<Email>, ids: set<int>): seq<Email> {
    if table == [] then []
    else (if table[0].id in ids then [] else [table[0]]) + WithoutIds(table[1..], ids)
  }

  /** A row survives a delete exactly when its id was not named, and nothing is added. */
  lemma {:induction false} WithoutIdsMembers(table: seq<Email>, ids: set<int>)
    ensures forall e :: e in WithoutIds(table, ids) <==> e in table && e.id !in ids
    ensures |WithoutIds(table, ids)| <= |table|
  {
    if table != [] {
      WithoutIdsMembers(table[1..], ids);
      assert forall e :: e in table <==> e == table[0] || e in table[1..] by {
        assert table == [table[0]] + table[1..];
      }
    }
  }

  /** Deleting one more id from what is left deletes the union. */
  lemma {:induction false} WithoutIdsTwice(table: seq<Email>, ids: set<int>, id: int)
    ensures WithoutIds(WithoutIds(table, ids), {id}) == WithoutIds(table, ids + {id})
  {
    if table != [] {
      WithoutIdsTwice(table[1..], ids, id);
      var rest := WithoutIds(table[1..], ids);
      if table[0].id !in ids {
        var r := [table[0]] + rest;
        assert r[0] == table[0] && r[1..] == rest;
        assert WithoutIds(table, ids) == r;
      } else {
        assert WithoutIds(table, ids) == rest;
      }
    }
  }

  /** Deleting rows keeps file paths distinct and ids ascending. */
  lemma {:induction false} WithoutIdsKeepsValid(table: seq<Email>, ids: set<int>, next: int)
    requires DistinctPaths(table) && EmailIdsBelow(table, next)
    ensures DistinctPaths(WithoutIds(table, ids)) && EmailIdsBelow(WithoutIds(table, ids), next)
  {
    if table != [] {
      var tail := table[1..];
      WithoutIdsKeepsValid(tail, ids, next);
      var rest := WithoutIds(tail, ids);
      if table[0].id !in ids {
        WithoutIdsMembers(tail, ids);
        forall e | e in rest
          ensures table[0].filePath != e.filePath && table[0].id < e.id
        {
          HeadBeforeTail(table, next, e);
        }
        ConsKeepsOrder(table[0], rest, next);
        assert WithoutIds(table, ids) == [table[0]] + rest;
      } else {
        assert WithoutIds(table, ids) == rest;
      }
    }
  }

  lemma ConsKeepsOrder(head: Email, rest: seq<Email>, next: int)
    requires DistinctPaths(rest) && EmailIdsBelow(rest, next) && 1 <= head.id < next
    requires forall e :: e in rest ==> head.filePath != e.filePath && head.id < e.id
    ensures DistinctPaths([head] + rest) && EmailIdsBelow([head] + rest, next)
  {
    var r := [head] + rest;
    assert forall j :: 1 <= j < |r| ==> r[j] == rest[j - 1];
  }

  lemma HeadBeforeTail(table: seq<Email>, next: int, e: Email)
    requires |table| >= 1 && DistinctPaths(table) && EmailIdsBelow(table, next)
    requires e in table[1..]
    ensures table[0].filePath != e.filePath && table[0].id < e.id
  {
    var m :| 0 <= m < |table| - 1 && table[1..][m] == e;
    assert table[m + 1] == e;
  }

  /** The rows the chunk query returns: the stored paths among `chunk`, in table order. */
  function MatchingPaths(table: seq<Email>, chunk: seq<string>): (r: seq<string>)
    ensures forall p :: p in r <==> p in chunk && PathStored(table, p)
  {
    if table == [] then []
    else
      var rest := MatchingPaths(table[1..], chunk);
      assert forall p :: PathStored(table, p) <==> table[0].filePath == p || PathStored(table[1..], p) by {
        forall p | PathStored(table, p) && table[0].filePath != p
          ensures PathStored(table[1..], p)
        {
          var k :| 0 <= k < |table| && table[k].filePath == p;
          assert table[1..][k - 1] == table[k];
        }
        forall p | PathStored(table[1..], p)
          ensures PathStored(table, p)
        {
          var k :| 0 <= k < |table[1..]| && table[1..][k].filePath == p;
          assert table[k + 1] == table[1..][k];
        }
      }
      (if table[0].filePath in chunk then [table[0].filePath] else []) + rest
  }

  /** The `recipients` values the query of `GetUniqueRecipients` reads, in table order. */
  function RecipientColumn(table: seq<Email>): (r: seq<string>)
    ensures forall s :: s in r <==> s != "" && exists k :: 0 <= k < |table| && table[k].recipients == s
  {
    if table == [] then []
    else
      var rest := RecipientColumn(table[1..]);
      assert forall k :: 1 <= k < |table| ==> table[k] == table[1..][k - 1];
      (if table[0].recipients != "" then [table[0].recipients] else []) + rest
  }

  /** The first parsed attachment with the given file name. */
  function FirstNamed(atts: seq<ParsedAttachment>, name: string): (r: Option<nat>)
    ensures r.Some? ==> r.value < |atts| && atts[r.value].filename == name
    ensures forall k :: 0 <= k < |atts| && (r.None? || k < r.value) ==> atts[k].filename != name
  {
    if atts == [] then None
    else if atts[0].filename == name then Some(0)
    else match FirstNamed(atts[1..], name)
      case None => None
      case Some(k) => Some(k + 1)
  }

  /** `AttachmentWithData`: stored metadata with the bytes parsed from the file, if any. */
  datatype AttachmentWithData = AttachmentWithData(attachment: Attachment, data: Option<string>)

  /** `EmailWithContent` */
  datatype EmailWithContent = EmailWithContent(
    email: Email,
    bodyText: string,
    bodyHtml: string,
    cc: seq<string>,
    bcc: seq<string>,
    rawHeaders: string,
    attachments: seq<AttachmentWithData>)

  /** The pairing loop of `GetEmailWithFullContent`: the i-th stored attachment
      gets the data of the i-th parsed one, or none when fewer were parsed. */
  method PairAttachments(meta: seq<Attachment>, parsed: seq<ParsedAttachment>) returns (out: seq<AttachmentWithData>)
    ensures |out| == |meta|
    ensures forall i :: 0 <= i < |out| ==> out[i].attachment == meta[i]
    ensures forall i :: 0 <= i < |out| ==>
      out[i].data == if i < |parsed| then Some(parsed[i].data) else None
  {
    out := [];
    for i := 0 to |meta|
      invariant |out| == i
      invariant forall k :: 0 <= k < i ==> out[k].attachment == meta[k]
      invariant forall k :: 0 <= k < i ==>
        out[k].data == if k < |parsed| then Some(parsed[k].data) else None
    {
      var data := None;
      if i < |parsed| {
        data := Some(parsed[i].data);
      }
      out := out + [AttachmentWithData(meta[i], data)];
    }
  }

  /** The search loop of `GetAttachmentData`: the first parsed attachment with that name. */
  method FindByFilename(parsed: seq<ParsedAttachment>, name: string) returns (r: Option<string>)
    ensures r.Some? <==> exists k :: 0 <= k < |parsed| && parsed[k].filename == name
    ensures r.Some? ==> FirstNamed(parsed, name).Some? && r.value == parsed[FirstNamed(parsed, name).value].data
  {
    for k := 0 to |parsed|
      invariant forall j :: 0 <= j < k ==> parsed[j].filename != name
    {
      if parsed[k].filename == name {
        return Some(parsed[k].data);
      }
    }
    return None;
  }

  /** Chunk number `c` of `paths`: indexes `c * ChunkSize` up to the next
      multiple of `ChunkSize` or the end, whichever comes first. */
  function ChunkAt(paths: seq<string>, c: nat): (chunk: seq<string>)
    requires c * ChunkSize < |paths|
    ensures 1 <= |chunk| <= ChunkSize && c * ChunkSize + |chunk| <= |paths|
  {
    var end := if c * ChunkSize + ChunkSize > |paths| then |paths| else c * ChunkSize + ChunkSize;
    paths[c * ChunkSize .. end]
  }

  /** The elements of the chunks, one chunk after the other. */
  function Flatten<T>(chunks: seq<seq<T>>): seq<T>
  {
    if chunks == [] then [] else Flatten(chunks[..|chunks| - 1]) + chunks[|chunks| - 1]
  }

  /** `chunks` are the first `|chunks|` chunks of `paths`, which together
      cover its first `i` elements. */
  ghost predicate ChunkedPrefix(paths: seq<string>, chunks: seq<seq<string>>, i: nat)
  {
    i <= |paths| && Flatten(chunks) == paths[..i] &&
    forall d :: 0 <= d < |chunks| ==> d * ChunkSize < |paths| && chunks[d] == ChunkAt(paths, d)
  }

  /** Appending the next chunk, which ends `ChunkSize` further on or at the
      end of `paths`, extends the covered prefix to the chunk's end. */
  lemma NextChunk(paths: seq<string>, chunks: seq<seq<string>>, i: nat, end: nat)
    requires i == |chunks| * ChunkSize < |paths| && ChunkedPrefix(paths, chunks, i)
    requires end == if i + ChunkSize > |paths| then |paths| else i + ChunkSize
    ensures ChunkedPrefix(paths, chunks + [paths[i..end]], end)
    ensures end == (|chunks| + 1) * ChunkSize || (end == |paths| && (|chunks| + 1) * ChunkSize >= |paths|)
  {
    var next := chunks + [paths[i..end]];
    assert next[..|chunks|] == chunks;
    assert paths[..end] == paths[..i] + paths[i..end];
  }

  /** The paths of a longer prefix are those of the shorter one and of the slice between. */
  lemma PathsOfPrefix(paths: seq<string>, i: nat, end: nat)
    requires i <= end <= |paths|
    ensures forall p :: p in paths[..end] <==> p in paths[..i] || p in paths[i..end]
  {
    assert paths[..end] == paths[..i] + paths[i..end];
  }

  /** Index `x` of the input is element `x % ChunkSize` of chunk `x / ChunkSize`,
      and no other chunk covers it. */
  lemma ChunkOf(paths: seq<string>, x: nat)
    requires x < |paths|
    ensures var c := x / ChunkSize;
      c * ChunkSize < |paths| && x % ChunkSize < |ChunkAt(paths, c)| &&
      ChunkAt(paths, c)[x % ChunkSize] == paths[x]
    ensures forall d: nat :: d * ChunkSize <= x < d * ChunkSize + ChunkSize ==> d == x / ChunkSize
  {
    var c := x / ChunkSize;
    assert c * ChunkSize + x % ChunkSize == x;
    forall d: nat | d * ChunkSize <= x < d * ChunkSize + ChunkSize
      ensures d == c
    {
      assert (d - c) * ChunkSize < ChunkSize && (c - d) * ChunkSize < ChunkSize;
    }
  }

  /** The statements of an email batch run one by one against a copy of the
      table: the copy with the new rows and the ids they got, or the first
      failure, a UNIQUE violation included. */
  method StageEmails(table: seq<Email>, next: int, batch: seq<Email>, failing: set<nat>)
    returns (r: Result<(seq<Email>, seq<int>), DbError>)
    ensures r.Ok? <==> Insertable(table, batch) && forall k :: k in failing ==> k >= |batch|
    ensures r.Ok? ==> r.value.0 == table + Stamped(batch, next)
    ensures r.Ok? ==> |r.value.1| == |batch| && forall k :: 0 <= k < |batch| ==> r.value.1[k] == next + k
    ensures r.Err? ==> (r.error == StatementFailed ||
      (r.error.UniqueViolation? && exists k :: 0 <= k < |batch| && batch[k].filePath == r.error.path))
  {
    var copy := table;
    var ids := [];
    for k := 0 to |batch|
      invariant copy == table + Stamped(batch[..k], next)
      invariant |ids| == k && forall j :: 0 <= j < k ==> ids[j] == next + j
      invariant Insertable(table, batch[..k])
      invariant forall j :: 0 <= j < k ==> j !in failing
    {
      if k in failing {
        return Err(StatementFailed);
      }
      var e := batch[k];
      if exists j :: 0 <= j < |copy| && copy[j].filePath == e.filePath {
        StoredOrEarlier(table, batch, next, k);
        return Err(UniqueViolation(e.filePath));
      }
      StampedStep(batch, next, k);
      InsertableStep(table, batch, next, k);
      copy := copy + [e.(id := next + k)];
      ids := ids + [next + k];
    }
    assert batch[..|batch|] == batch;
    return Ok((copy, ids));
  }

  /** The statements of an attachment batch run against a copy of the table. */
  method StageAttachments(table: seq<Attachment>, next: int, batch: seq<Attachment>, failing: set<nat>)
    returns (r: Result<seq<Attachment>, DbError>)
    ensures r.Ok? <==> forall k :: k in failing ==> k >= |batch|
    ensures r.Ok? ==> r.value == table + StampedAttachments(batch, next)
    ensures r.Err? ==> r.error == StatementFailed
  {
    var copy := table;
    for k := 0 to |batch|
      invariant copy == table + StampedAttachments(batch[..k], next)
      invariant forall j :: 0 <= j < k ==> j !in failing
    {
      if k in failing {
        return Err(StatementFailed);
      }
      assert StampedAttachments(batch[..k + 1], next) ==
        StampedAttachments(batch[..k], next) + [batch[k].(id := next + k)];
      copy := copy + [batch[k].(id := next + k)];
    }
    assert batch[..|batch|] == batch;
    return Ok(copy);
  }

  /** The deletes of a batch run one by one against a copy of the table. */
  method StageDeletes(table: seq<Email>, ids: seq<int>, failing: set<nat>) returns (r: Result<seq<Email>, DbError>)
    ensures r.Ok? <==> forall k :: k in failing ==> k >= |ids|
    ensures r.Ok? ==> r.value == WithoutIds(table, IdSet(ids))
    ensures r.Err? ==> r.error == StatementFailed
  {
    var copy := table;
    WithoutNothing(table);
    assert IdSet(ids[..0]) == {};
    for k := 0 to |ids|
      invariant copy == WithoutIds(table, IdSet(ids[..k]))
      invariant forall j :: 0 <= j < k ==> j !in failing
    {
      if k in failing {
        return Err(StatementFailed);
      }
      WithoutIdsTwice(table, IdSet(ids[..k]), ids[k]);
      assert IdSet(ids[..k + 1]) == IdSet(ids[..k]) + {ids[k]} by {
        assert ids[..k + 1] == ids[..k] + [ids[k]];
      }
      copy := WithoutIds(copy, {ids[k]});
    }
    assert ids[..|ids|] == ids;
    return Ok(copy);
  }

  /** Sets every given key to `v`; other keys keep their value. */
  method MarkAll(m0: map<string, bool>, keys: seq<string>, v: bool) returns (m: map<string, bool>)
    ensures m.Keys == m0.Keys + (set p | p in keys)
    ensures forall p :: p in keys ==> m[p] == v
    ensures forall p :: p in m0 && p !in keys ==> m[p] == m0[p]
  {
    m := m0;
    for i := 0 to |keys|
      invariant m.Keys == m0.Keys + (set p | p in keys[..i])
      invariant forall p :: p in keys[..i] ==> m[p] == v
      invariant forall p :: p in m0 && p !in keys[..i] ==> m[p] == m0[p]
    {
      m := m[keys[i] := v];
      assert keys[..i + 1] == keys[..i] + [keys[i]];
    }
    assert keys[..|keys|] == keys;
  }

  class DB {
    /** The root that relative `file_path` values resolve against. */
    var emailsPath: string
    /** The `emails` table in rowid order. */
    var emails: seq<Email>
    /** The `attachments` table in rowid order. */
    var attachments: seq<Attachment>
    /** The AUTOINCREMENT counters. */
    var nextEmailId: int
    var nextAttachmentId: int

    ghost predicate Valid()
      reads this
    {
      1 <= nextEmailId && 1 <= nextAttachmentId &&
      DistinctPaths(emails) && EmailIdsBelow(emails, nextEmailId) &&
      AttachmentIdsBelow(attachments, nextAttachmentId)
    }

    /** A freshly created database: empty tables, no root configured. */
    constructor ()
      ensures Valid()
      ensures emailsPath == "" && emails == [] && attachments == []
    {
      emailsPath := "";
      emails := [];
      attachments := [];
      nextEmailId := 1;
      nextAttachmentId := 1;
    }

    function GetEmailsPath(): string
      reads this
    {
      emailsPath
    }

    /** `SetEmailsPath`: only the root changes, and reading it back gives the new value. */
    method SetEmailsPath(path: string)
      modifies this
      ensures GetEmailsPath() == path
      ensures emails == old(emails) && attachments == old(attachments)
      ensures nextEmailId == old(nextEmailId) && nextAttachmentId == old(nextAttachmentId)
    {
      emailsPath := path;
    }

    /** `InsertEmail`: one row, or a UNIQUE violation that changes nothing. */
    method InsertEmail(e: Email, fails: bool) returns (r: Result<int, DbError>)
      requires Valid()
      modifies this
      ensures Valid()
      ensures emailsPath == old(emailsPath) && attachments == old(attachments)
      ensures nextAttachmentId == old(nextAttachmentId)
      ensures fails ==> r == Err(StatementFailed)
      ensures !fails && PathStored(old(emails), e.filePath) ==> r == Err(UniqueViolation(e.filePath))
      ensures r.Ok? <==> !fails && !PathStored(old(emails), e.filePath)
      ensures r.Err? ==> emails == old(emails) && nextEmailId == old(nextEmailId)
      ensures r.Ok? ==> (r.value == old(nextEmailId) && nextEmailId == old(nextEmailId) + 1 &&
        emails == old(emails) + [e.(id := r.value)])
    {
      if fails {
        return Err(StatementFailed);
      }
      if exists k :: 0 <= k < |emails| && emails[k].filePath == e.filePath {
        return Err(UniqueViolation(e.filePath));
      }
      var id := nextEmailId;
      emails := emails + [e.(id := id)];
      nextEmailId := nextEmailId + 1;
      return Ok(id);
    }

    /** `EmailExists` */
    method EmailExists(path: string, fails: bool) returns (r: Result<bool, DbError>)
      ensures fails ==> r == Err(StatementFailed)
      ensures !fails ==> r.Ok? && (r.value <==> exists k :: 0 <= k < |emails| && emails[k].filePath == path)
    {
      if fails {
        return Err(StatementFailed);
      }
      return Ok(exists k :: 0 <= k < |emails| && emails[k].filePath == path);
    }

    /** `InsertAttachment`: the attachments table has no UNIQUE column, and the
        foreign key is not enforced, so only the engine can make it fail. */
    method InsertAttachment(att: Attachment, fails: bool) returns (r: Result<int, DbError>)
      requires Valid()
      modifies this
      ensures Valid()
      ensures emailsPath == old(emailsPath) && emails == old(emails) && nextEmailId == old(nextEmailId)
      ensures r.Ok? <==> !fails
      ensures r.Err? ==> (r.error == StatementFailed && attachments == old(attachments) &&
        nextAttachmentId == old(nextAttachmentId))
      ensures r.Ok? ==> (r.value == old(nextAttachmentId) && nextAttachmentId == old(nextAttachmentId) + 1 &&
        attachments == old(attachments) + [att.(id := r.value)])
    {
      if fails {
        return Err(StatementFailed);
      }
      var id := nextAttachmentId;
      attachments := attachments + [att.(id := id)];
      nextAttachmentId := nextAttachmentId + 1;
      return Ok(id);
    }

    /** `checkExistenceChunk`: every path of the chunk is entered as false, then
        each returned row sets its path to true.  The caller's map comes back updated. */
    method CheckExistenceChunk(chunk: seq<string>, result: map<string, bool>, fails: bool)
      returns (r: Result<map<string, bool>, DbError>)
      ensures r.Ok? <==> chunk == [] || !fails
      ensures chunk == [] ==> r == Ok(result)
      ensures r.Ok? ==> r.value.Keys == result.Keys + (set p | p in chunk)
      ensures r.Ok? ==> forall p :: p in chunk ==> r.value[p] == PathStored(emails, p)
      ensures r.Ok? ==> forall p :: p in result && p !in chunk ==> r.value[p] == result[p]
    {
      if |chunk| == 0 {
        return Ok(result);
      }
      var m := MarkAll(result, chunk, false);
      if fails {
        return Err(StatementFailed);
      }
      var rows := MatchingPaths(emails, chunk);
      m := MarkAll(m, rows, true);
      return Ok(m);
    }

    /** `EmailsExistBatch`: the paths are checked in consecutive chunks of
        `ChunkSize`; `chunks` lists the arguments of the chunk queries in call
        order.  A failing chunk query fails the whole call and is the last one. */
    method EmailsExistBatch(paths: seq<string>, failing: set<nat>)
      returns (r: Result<map<string, bool>, DbError>, ghost chunks: seq<seq<string>>)
      ensures paths == [] ==> r == Ok(map[]) && chunks == []
      ensures r.Err? <==> exists c :: c in failing && c * ChunkSize < |paths|
      ensures r.Ok? ==> r.value.Keys == set p | p in paths
      ensures r.Ok? ==> forall p :: p in r.value ==> r.value[p] == PathStored(emails, p)
      ensures forall c :: 0 <= c < |chunks| ==> c * ChunkSize < |paths| && chunks[c] == ChunkAt(paths, c)
      ensures r.Ok? ==> Flatten(chunks) == paths && forall c :: 0 <= c < |chunks| ==> c !in failing
      ensures r.Err? ==>
        chunks != [] && |chunks| - 1 in failing && forall c :: 0 <= c < |chunks| - 1 ==> c !in failing
    {
      chunks := [];
      if |paths| == 0 {
        return Ok(map[]), chunks;
      }
      var result := map[];
      var i := 0;
      var c: nat := 0;
      while i < |paths|
        invariant c == |chunks|
        invariant i == c * ChunkSize || (i == |paths| && c * ChunkSize >= |paths|)
        invariant ChunkedPrefix(paths, chunks, i)
        invariant forall d :: d in failing ==> d >= c
        invariant forall p :: p in result <==> p in paths[..i]
        invariant forall p :: p in result ==> result[p] == PathStored(emails, p)
      {
        var end := i + ChunkSize;
        if end > |paths| {
          end := |paths|;
        }
        var chunk := paths[i..end];
        NextChunk(paths, chunks, i, end);
        chunks := chunks + [chunk];
        var checked := CheckExistenceChunk(chunk, result, c in failing);
        if checked.Err? {
          return Err(checked.error), chunks;
        }
        result := checked.value;
        PathsOfPrefix(paths, i, end);
        i := end;
        c := c + 1;
      }
      assert paths[..i] == paths;
      return Ok(result), chunks;
    }

    /** `InsertEmailsBatch`: all rows in one transaction, ids returned in input
        order; any failing statement, a UNIQUE violation included, or a failing
        commit rolls everything back. */
    method InsertEmailsBatch(batch: seq<Email>, failing: set<nat>, commitFails: bool)
      returns (r: Result<seq<int>, DbError>)
      requires Valid()
      modifies this
      ensures Valid()
      ensures emailsPath == old(emailsPath) && attachments == old(attachments)
      ensures nextAttachmentId == old(nextAttachmentId)
      ensures batch == [] ==> r == Ok([])
      ensures r.Ok? <==> (batch == [] ||
        (Insertable(old(emails), batch) && (forall k :: k in failing ==> k >= |batch|) && !commitFails))
      ensures r.Err? ==> emails == old(emails) && nextEmailId == old(nextEmailId)
      ensures r.Ok? ==> |r.value| == |batch| && (forall k :: 0 <= k < |batch| ==> r.value[k] == old(nextEmailId) + k)
      ensures r.Ok? ==> (emails == old(emails) + Stamped(batch, old(nextEmailId)) &&
        nextEmailId == old(nextEmailId) + |batch|)
    {
      if |batch| == 0 {
        return Ok([]);
      }
      var staged := StageEmails(emails, nextEmailId, batch, failing);
      if staged.Err? {
        return Err(staged.error);
      }
      if commitFails {
        return Err(CommitFailed);
      }
      AppendStampedValid(emails, batch, nextEmailId);
      emails := staged.value.0;
      nextEmailId := nextEmailId + |batch|;
      return Ok(staged.value.1);
    }

    /** `InsertAttachmentsBatch`: all rows or none. */
    method InsertAttachmentsBatch(batch: seq<Attachment>, failing: set<nat>, commitFails: bool)
      returns (r: Result<(), DbError>)
      requires Valid()
      modifies this
      ensures Valid()
      ensures emailsPath == old(emailsPath) && emails == old(emails) && nextEmailId == old(nextEmailId)
      ensures r.Ok? <==> batch == [] || ((forall k :: k in failing ==> k >= |batch|) && !commitFails)
      ensures r.Err? ==> attachments == old(attachments) && nextAttachmentId == old(nextAttachmentId)
      ensures r.Ok? ==> (attachments == old(attachments) + StampedAttachments(batch, old(nextAttachmentId)) &&
        nextAttachmentId == old(nextAttachmentId) + |batch|)
    {
      if |batch| == 0 {
        return Ok(());
      }
      var staged := StageAttachments(attachments, nextAttachmentId, batch, failing);
      if staged.Err? {
        return Err(staged.error);
      }
      if commitFails {
        return Err(CommitFailed);
      }
      AppendAttachmentsValid(attachments, batch, nextAttachmentId);
      attachments := staged.value;
      nextAttachmentId := nextAttachmentId + |batch|;
      return Ok(());
    }

    /** `DeleteEmail`: removes the row with that id; a missing id is an error
        that changes nothing.  Attachment rows stay (foreign keys are off). */
    method DeleteEmail(id: int, fails: bool) returns (r: Result<(), DbError>)
      requires Valid()
      modifies this
      ensures Valid()
      ensures emailsPath == old(emailsPath) && attachments == old(attachments)
      ensures nextEmailId == old(nextEmailId) && nextAttachmentId == old(nextAttachmentId)
      ensures fails ==> r == Err(StatementFailed)
      ensures !fails && EmailById(old(emails), id).None? ==> r == Err(EmailNotFound)
      ensures r.Ok? <==> !fails && EmailById(old(emails), id).Some?
      ensures r.Err? ==> emails == old(emails)
      ensures r.Ok? ==> emails == WithoutIds(old(emails), {id})
    {
      if fails {
        return Err(StatementFailed);
      }
      if EmailById(emails, id).None? {
        return Err(EmailNotFound);
      }
      WithoutIdsKeepsValid(emails, {id}, nextEmailId);
      emails := WithoutIds(emails, {id});
      return Ok(());
    }

    /** `DeleteEmailsBatch`: every id in one transaction, all or nothing.
        Deleting an id that is not stored is not an error. */
    method DeleteEmailsBatch(ids: seq<int>, failing: set<nat>, commitFails: bool) returns (r: Result<(), DbError>)
      requires Valid()
      modifies this
      ensures Valid()
      ensures emailsPath == old(emailsPath) && attachments == old(attachments)
      ensures nextEmailId == old(nextEmailId) && nextAttachmentId == old(nextAttachmentId)
      ensures r.Ok? <==> ids == [] || ((forall k :: k in failing ==> k >= |ids|) && !commitFails)
      ensures r.Err? ==> emails == old(emails)
      ensures r.Ok? ==> emails == WithoutIds(old(emails), IdSet(ids))
    {
      if |ids| == 0 {
        WithoutNothing(emails);
        assert IdSet(ids) == {};
        return Ok(());
      }
      var staged := StageDeletes(emails, ids, failing);
      if staged.Err? {
        return Err(staged.error);
      }
      if commitFails {
        return Err(CommitFailed);
      }
      WithoutIdsKeepsValid(emails, IdSet(ids), nextEmailId);
      emails := staged.value;
      return Ok(());
    }

    /** `GetUniqueRecipients(limit)`: the `limit` most frequent addresses over all
        rows, most frequent first, ties in ascending byte order.  A negative
        limit makes Go's `make` panic. */
    method GetUniqueRecipients(limit: int) returns (result: seq<string>)
      requires limit >= 0
      ensures var rows := RecipientColumn(emails);
        |result| == if limit < |Recipients.TokenSet(rows)| then limit else |Recipients.TokenSet(rows)|
      ensures forall k :: 0 <= k < |result| ==> Recipients.Count(RecipientColumn(emails), result[k]) > 0
      ensures forall p, q :: 0 <= p < q < |result| ==> result[p] != result[q]
      ensures forall p, q :: 0 <= p < q < |result| ==>
        Recipients.Ranked(RecipientColumn(emails), result[p], result[q])
      ensures forall x :: Recipients.Count(RecipientColumn(emails), x) > 0 && x !in result ==>
        forall k :: 0 <= k < |result| ==> Recipients.Ranked(RecipientColumn(emails), result[k], x)
    {
      result := Recipients.UniqueRecipients(RecipientColumn(emails), limit);
    }

    /** `GetEmailWithFullContent`: a missing id is no error and no email; otherwise
        the stored file is resolved under the root and parsed, and the stored
        attachment rows are paired with the parsed attachments by position.
        `parse` stands for reading and parsing the file (None: it failed);
        `cwd` is the working directory that makes the root absolute. */
    method GetEmailWithFullContent(id: int, cwd: string, parse: string -> Option<ParsedEmail>)
      returns (r: Result<Option<EmailWithContent>, DbError>)
      ensures EmailById(emails, id).None? ==> r == Ok(None)
      ensures EmailById(emails, id).Some? ==>
        var e := EmailById(emails, id).value;
        var path := ResolveEmailPath(emailsPath, cwd, e.filePath);
        (path.Err? ==> r == Err(PathTraversal)) &&
        (path.Ok? && parse(path.value).None? ==> r == Err(ParseFailed(path.value))) &&
        (path.Ok? && parse(path.value).Some? ==> (r.Ok? && r.value.Some? &&
          var p := parse(path.value).value;
          var meta := AttachmentsOf(attachments, id);
          var out := r.value.value;
          out.email == e && out.bodyText == p.bodyText && out.bodyHtml == p.bodyHtml &&
          out.cc == p.cc && out.bcc == p.bcc && out.rawHeaders == p.rawHeaders &&
          |out.attachments| == |meta| &&
          (forall i :: 0 <= i < |meta| ==> out.attachments[i].attachment == meta[i]) &&
          (forall i :: 0 <= i < |meta| ==>
            out.attachments[i].data == if i < |p.attachments| then Some(p.attachments[i].data) else None)))
    {
      var found := EmailById(emails, id);
      if found.None? {
        return Ok(None);
      }
      var e := found.value;
      var path := ResolveEmailPath(emailsPath, cwd, e.filePath);
      if path.Err? {
        return Err(PathTraversal);
      }
      var parsed := parse(path.value);
      if parsed.None? {
        return Err(ParseFailed(path.value));
      }
      var p := parsed.value;
      var meta := AttachmentsOf(attachments, id);
      var paired := PairAttachments(meta, p.attachments);
      return Ok(Some(EmailWithContent(e, p.bodyText, p.bodyHtml, p.cc, p.bcc, p.rawHeaders, paired)));
    }

    /** `GetAttachmentData`: the data of the first attachment in the parsed file
        whose name equals the stored file name. */
    method GetAttachmentData(attachmentId: int, cwd: string, parse: string -> Option<ParsedEmail>)
      returns (r: Result<string, DbError>)
      ensures AttachmentById(attachments, attachmentId).None? ==> r == Err(AttachmentNotFound)
      ensures AttachmentById(attachments, attachmentId).Some? ==>
        var att := AttachmentById(attachments, attachmentId).value;
        (EmailById(emails, att.emailId).None? ==> r == Err(EmailNotFoundForAttachment)) &&
        (EmailById(emails, att.emailId).Some? ==>
          var path := ResolveEmailPath(emailsPath, cwd, EmailById(emails, att.emailId).value.filePath);
          (path.Err? ==> r == Err(PathTraversal)) &&
          (path.Ok? && parse(path.value).None? ==> r == Err(ParseFailed(path.value))) &&
          (path.Ok? && parse(path.value).Some? ==>
            var parsed := parse(path.value).value.attachments;
            var k := FirstNamed(parsed, att.filename);
            (k.None? ==> r == Err(AttachmentNotInFile(att.filename))) &&
            (k.Some? ==> r == Ok(parsed[k.value].data))))
    {
      var found := AttachmentById(attachments, attachmentId);
      if found.None? {
        return Err(AttachmentNotFound);
      }
      var att := found.value;
      var email := EmailById(emails, att.emailId);
      if email.None? {
        return Err(EmailNotFoundForAttachment);
      }
      var path := ResolveEmailPath(emailsPath, cwd, email.value.filePath);
      if path.Err? {
        return Err(PathTraversal);
      }
      var parsed := parse(path.value);
      if parsed.None? {
        return Err(ParseFailed(path.value));
      }
      var data := FindByFilename(parsed.value.attachments, att.filename);
      if data.None? {
        return Err(AttachmentNotInFile(att.filename));
      }
      return Ok(data.value);
    }
  }

  /** Deleting no id keeps every row. */
  lemma {:induction false} WithoutNothing(table: seq<Email>)
    ensures WithoutIds(table, {}) == table
  {
    if table != [] {
      WithoutNothing(table[1..]);
      assert table == [table[0]] + table[1..];
    }
  }

  lemma StampedStep(batch: seq<Email>, first: int, k: nat)
    requires k < |batch|
    ensures Stamped(batch[..k + 1], first) == Stamped(batch[..k], first) + [batch[k].(id := first + k)]
  {
  }

  /** A path already in the table, old rows or new, either was stored or repeats an earlier row of the batch. */
  lemma StoredOrEarlier(table: seq<Email>, batch: seq<Email>, first: int, k: nat)
    requires k < |batch|
    requires PathStored(table + Stamped(batch[..k], first), batch[k].filePath)
    ensures !Insertable(table, batch)
  {
    var t := table + Stamped(batch[..k], first);
    var j :| 0 <= j < |t| && t[j].filePath == batch[k].filePath;
    if j >= |table| {
      assert batch[j - |table|].filePath == batch[k].filePath;
    } else {
      assert PathStored(table, batch[k].filePath);
    }
  }

  lemma InsertableStep(table: seq<Email>, batch: seq<Email>, first: int, k: nat)
    requires k < |batch| && Insertable(table, batch[..k])
    requires !PathStored(table + Stamped(batch[..k], first), batch[k].filePath)
    ensures Insertable(table, batch[..k + 1])
  {
    var t := table + Stamped(batch[..k], first);
    forall j | 0 <= j < k
      ensures batch[j].filePath != batch[k].filePath
    {
      assert t[|table| + j].filePath == batch[j].filePath;
    }
    forall i | 0 <= i < |table|
      ensures table[i].filePath != batch[k].filePath
    {
      assert t[i] == table[i];
    }
  }

  /** Appending an insertable batch with fresh ids keeps the table's invariants. */
  lemma AppendStampedValid(table: seq<Email>, batch: seq<Email>, next: int)
    requires DistinctPaths(table) && EmailIdsBelow(table, next) && 1 <= next
    requires Insertable(table, batch)
    ensures DistinctPaths(table + Stamped(batch, next))
    ensures EmailIdsBelow(table + Stamped(batch, next), next + |batch|)
  {
    var t := table + Stamped(batch, next);
    forall i, j | 0 <= i < j < |t|
      ensures t[i].filePath != t[j].filePath
    {
      if j >= |table| && i < |table| {
        assert table[i].filePath != batch[j - |table|].filePath;
      }
    }
  }

  lemma AppendAttachmentsValid(atts: seq<Attachment>, batch: seq<Attachment>, next: int)
    requires AttachmentIdsBelow(atts, next) && 1 <= next
    ensures AttachmentIdsBelow(atts + StampedAttachments(batch, next), next + |batch|)
  {
  }
}
