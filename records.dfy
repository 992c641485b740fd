/**
 * The rows of the `emails` and `attachments` tables (metadata only) and the
 * read-only queries over them, as pure functions of the table contents.
 *
 * A table is the sequence of its rows in insertion (rowid) order.  Where a
 * query has no ORDER BY, or its ORDER BY leaves ties, the model returns rows
 * in that order.
 */
module Records {
  import opened Wrappers

  /** A row of `emails` (internal/db/emails.go `Email`).  `date` is NULL-able;
      `indexed_at` and `updated_at` are clock values and are not modelled. */
  datatype Email = Email(
    id: int,
    filePath: string,
    messageId: string,
    inReplyTo: string,
    threadReferences: string,
    subject: string,
    sender: string,
    senderName: string,
    recipients: string,
    date: Option<int>,
    bodyTextPreview: string,
    hasAttachments: bool,
    attachmentCount: int,
    fileSize: int)

  /** The errors the store reports.  `PathTraversal` is the single sentinel
      `ErrPathTraversal`; `StatementFailed` and `CommitFailed` stand for driver
      failures the model takes as given. */
  datatype DbError =
    | PathTraversal
    | UniqueViolation(path: string)
    | StatementFailed
    | CommitFailed
    | EmailNotFound
    | AttachmentNotFound
    | EmailNotFoundForAttachment
    | AttachmentNotInFile(filename: string)
    | ParseFailed(path: string)
    | CircularReference

  /** A row of `attachments`. */
  datatype Attachment = Attachment(id: int, emailId: int, filename: string, contentType: string, size: int)

  /** SQL ordering of a NULL-able date, the date being an abstract ordered key:
      NULL sorts before every date. */
  predicate DateLe(a: Option<int>, b: Option<int>) {
    a.None? || (b.Some? && a.value <= b.value)
  }

  /** `x` may come before `y` under ORDER BY date ASC (or DESC). */
  predicate InOrder(x: Email, y: Email, ascending: bool) {
    if ascending then DateLe(x.date, y.date) else DateLe(y.date, x.date)
  }

  predicate SortedByDate(s: seq<Email>, ascending: bool) {
    forall i, j :: 0 <= i < j < |s| ==> InOrder(s[i], s[j], ascending)
  }

  lemma InOrderTransitive(a: Email, b: Email, c: Email, ascending: bool)
    requires InOrder(a, b, ascending) && InOrder(b, c, ascending)
    ensures InOrder(a, c, ascending)
  {
  }

  lemma InOrderTotal(a: Email, b: Email, ascending: bool)
    ensures InOrder(a, b, ascending) || InOrder(b, a, ascending)
  {
  }

  /** A row that may precede every row of a sorted sequence can be put in front of it. */
  lemma PrependSorted(x: Email, s: seq<Email>, ascending: bool)
    requires SortedByDate(s, ascending)
    requires forall k :: 0 <= k < |s| ==> InOrder(x, s[k], ascending)
    ensures SortedByDate([x] + s, ascending)
  {
    var r := [x] + s;
    forall i, j | 0 <= i < j < |r|
      ensures InOrder(r[i], r[j], ascending)
    {
      if i > 0 {
        assert r[i] == s[i - 1] && r[j] == s[j - 1];
      }
    }
  }

  /** Put `x` in front of the first row it may precede. */
  function InsertByDate(x: Email, s: seq<Email>, ascending: bool): (r: seq<Email>)
    requires SortedByDate(s, ascending)
    ensures SortedByDate(r, ascending)
    ensures multiset(r) == multiset(s) + multiset{x}
    decreases |s|
  {
    if s == [] then [x]
    else if InOrder(x, s[0], ascending) then
      assert forall k :: 0 < k < |s| ==> InOrder(s[0], s[k], ascending);
      assert forall k :: 0 <= k < |s| ==> InOrder(x, s[k], ascending) by {
        forall k | 0 <= k < |s| { InOrderTransitive(x, s[0], s[k], ascending); }
      }
      PrependSorted(x, s, ascending);
      [x] + s
    else
      var rest := InsertByDate(x, s[1..], ascending);
      assert s == [s[0]] + s[1..];
      HeadStaysFirst(x, s, rest, ascending);
      PrependSorted(s[0], rest, ascending);
      [s[0]] + rest
  }

  /** When `x` may not precede the head of a sorted list, the head may precede
      every row of the tail with `x` inserted. */
  lemma HeadStaysFirst(x: Email, s: seq<Email>, rest: seq<Email>, ascending: bool)
    requires s != [] && SortedByDate(s, ascending) && !InOrder(x, s[0], ascending)
    requires multiset(rest) == multiset(s[1..]) + multiset{x}
    ensures forall k :: 0 <= k < |rest| ==> InOrder(s[0], rest[k], ascending)
  {
    forall k | 0 <= k < |rest|
      ensures InOrder(s[0], rest[k], ascending)
    {
      assert rest[k] in multiset(s[1..]) + multiset{x};
      if rest[k] == x {
        InOrderTotal(x, s[0], ascending);
      } else {
        assert rest[k] in s[1..];
      }
    }
  }

  /** ORDER BY date: the rows sorted by date.  SQL leaves the order of equal
      dates unspecified; this model keeps them in table order. */
  function SortByDate(s: seq<Email>, ascending: bool): (r: seq<Email>)
    ensures SortedByDate(r, ascending)
    ensures multiset(r) == multiset(s)
    decreases |s|
  {
    if s == [] then []
    else
      assert s == [s[0]] + s[1..];
      InsertByDate(s[0], SortByDate(s[1..], ascending), ascending)
  }

  /** LIMIT/OFFSET: a negative limit means no limit, a negative offset counts as 0. */
  function Page<T>(s: seq<T>, limit: int, offset: int): (r: seq<T>)
    ensures var start := if offset < 0 then 0 else if offset > |s| then |s| else offset;
      start + |r| <= |s| && r == s[start..start + |r|] &&
      |r| == (if limit < 0 || limit > |s| - start then |s| - start else limit)
  {
    var start := if offset < 0 then 0 else if offset > |s| then |s| else offset;
    var rest := s[start..];
    if limit < 0 || limit > |rest| then rest else rest[..limit]
  }

  /** `SELECT ... FROM emails WHERE id = ?`. */
  function EmailById(table: seq<Email>, id: int): (r: Option<Email>)
    ensures r.Some? <==> exists k :: 0 <= k < |table| && table[k].id == id
    ensures r.Some? ==> r.value in table && r.value.id == id
  {
    if table == [] then None
    else if table[0].id == id then Some(table[0])
    else EmailById(table[1..], id)
  }

  /** `GetEmailsByMessageID`: the first row with that message id; none for "". */
  function LookupByMessageId(table: seq<Email>, mid: string): (r: Option<Email>)
    ensures r.Some? <==> mid != "" && exists k :: 0 <= k < |table| && table[k].messageId == mid
    ensures r.Some? ==> r.value in table && r.value.messageId == mid
  {
    if mid == "" || table == [] then None
    else if table[0].messageId == mid then Some(table[0])
    else LookupByMessageId(table[1..], mid)
  }

  /** The rows replying to `mid`, in table order. */
  function RepliesTo(table: seq<Email>, mid: string): (r: seq<Email>)
    ensures forall e :: e in r <==> e in table && e.inReplyTo == mid
  {
    if table == [] then []
    else (if table[0].inReplyTo == mid then [table[0]] else []) + RepliesTo(table[1..], mid)
  }

  /** `GetDirectReplies`: the rows whose in_reply_to is `mid`, ORDER BY date ASC;
      no rows for an empty id. */
  function DirectReplies(table: seq<Email>, mid: string): (r: seq<Email>)
    ensures SortedByDate(r, true)
    ensures mid != "" ==> multiset(r) == multiset(RepliesTo(table, mid))
    ensures forall e :: e in r <==> mid != "" && e in table && e.inReplyTo == mid
  {
    if mid == "" then []
    else
      var r := SortByDate(RepliesTo(table, mid), true);
      assert forall e :: e in r <==> e in multiset(RepliesTo(table, mid));
      r
  }

  /** The WHERE clause of `GetRootEmails`: in_reply_to is empty or names no stored
      non-empty message_id. */
  predicate IsRootEmail(table: seq<Email>, e: Email) {
    e.inReplyTo == "" || forall k :: 0 <= k < |table| ==> table[k].messageId != e.inReplyTo
  }

  function RootRows(table: seq<Email>): (r: seq<Email>)
    ensures forall e :: e in r <==> e in table && IsRootEmail(table, e)
  {
    RootRowsOf(table, table)
  }

  function RootRowsOf(table: seq<Email>, rows: seq<Email>): (r: seq<Email>)
    ensures forall e :: e in r <==> e in rows && IsRootEmail(table, e)
  {
    if rows == [] then []
    else (if IsRootEmail(table, rows[0]) then [rows[0]] else []) + RootRowsOf(table, rows[1..])
  }

  /** The number of rows a LIMIT/OFFSET page of `n` rows holds. */
  function PageLen(n: nat, limit: int, offset: int): nat {
    var start := if offset < 0 then 0 else if offset > n then n else offset;
    if limit < 0 || limit > n - start then n - start else limit
  }

  /** Under ORDER BY date DESC, no row after the first `m` has a larger date key
      than one of them. */
  lemma LargestDatesFirst(sorted: seq<Email>, m: nat)
    requires SortedByDate(sorted, false) && m <= |sorted|
    ensures forall e, x :: e in sorted[..m] && x in sorted && x !in sorted[..m] ==> DateLe(x.date, e.date)
  {
    forall e, x | e in sorted[..m] && x in sorted && x !in sorted[..m]
      ensures DateLe(x.date, e.date)
    {
      assert forall k :: 0 <= k < m ==> sorted[k] in sorted[..m];
      var j :| 0 <= j < |sorted| && sorted[j] == x;
      var i :| 0 <= i < m && sorted[..m][i] == e;
      assert InOrder(sorted[i], sorted[j], false);
    }
  }

  /** The same rows as `source`, in another order, hold the same members. */
  lemma SameMembers(sorted: seq<Email>, source: seq<Email>)
    requires multiset(sorted) == multiset(source)
    ensures |sorted| == |source|
    ensures forall e :: e in sorted <==> e in source
  {
    assert |sorted| == |multiset(source)| == |source|;
    forall e
      ensures e in sorted <==> e in source
    {
      assert e in sorted <==> e in multiset(source);
    }
  }

  /** A page of the rows `source` sorted by descending date key: its rows come
      from `source`, its length is the clamped LIMIT, with no limit and no offset
      it is all of `source`, and from offset 0 no row left out has a larger date
      key than a row on the page. */
  lemma PageOfDescending(sorted: seq<Email>, source: seq<Email>, limit: int, offset: int)
    requires SortedByDate(sorted, false) && multiset(sorted) == multiset(source)
    ensures var r := Page(sorted, limit, offset);
      (forall e :: e in r ==> e in source) &&
      |r| == PageLen(|source|, limit, offset) &&
      (limit < 0 && offset <= 0 ==> multiset(r) == multiset(source)) &&
      (offset <= 0 ==> forall e, x :: e in r && x in source && x !in r ==> DateLe(x.date, e.date))
  {
    var r := Page(sorted, limit, offset);
    SameMembers(sorted, source);
    assert forall e :: e in r ==> e in sorted;
    if offset <= 0 {
      assert r == sorted[..|r|];
      LargestDatesFirst(sorted, |r|);
    }
  }

  /** `GetRootEmails(limit, offset)`: root rows, ORDER BY date DESC, LIMIT/OFFSET. */
  function GetRootEmails(table: seq<Email>, limit: int, offset: int): (r: seq<Email>)
    ensures SortedByDate(r, false)
    ensures forall e :: e in r ==> e in table && IsRootEmail(table, e)
    ensures |r| == PageLen(|RootRows(table)|, limit, offset)
    ensures limit < 0 && offset <= 0 ==> multiset(r) == multiset(RootRows(table))
    ensures offset <= 0 ==>
      forall e, x :: e in r && x in RootRows(table) && x !in r ==> DateLe(x.date, e.date)
  {
    var sorted := SortByDate(RootRows(table), false);
    PageOfDescending(sorted, RootRows(table), limit, offset);
    Page(sorted, limit, offset)
  }

  /** `ListEmails(limit, offset)`: all rows, ORDER BY date DESC, LIMIT/OFFSET. */
  function ListEmails(table: seq<Email>, limit: int, offset: int): (r: seq<Email>)
    ensures SortedByDate(r, false)
    ensures forall e :: e in r ==> e in table
    ensures |r| == PageLen(|table|, limit, offset)
    ensures limit < 0 && offset <= 0 ==> multiset(r) == multiset(table)
    ensures offset <= 0 ==> forall e, x :: e in r && x in table && x !in r ==> DateLe(x.date, e.date)
  {
    var sorted := SortByDate(table, false);
    PageOfDescending(sorted, table, limit, offset);
    Page(sorted, limit, offset)
  }

  /** A root email is exactly one whose parent cannot be looked up by message id. */
  lemma RootMeansNoParent(table: seq<Email>, e: Email)
    ensures IsRootEmail(table, e) <==> e.inReplyTo == "" || LookupByMessageId(table, e.inReplyTo).None?
  {
  }

  /** `GetAttachmentsByEmailID`: the attachment rows of one email, in table order. */
  function AttachmentsOf(atts: seq<Attachment>, emailId: int): (r: seq<Attachment>)
    ensures forall a :: a in r <==> a in atts && a.emailId == emailId
    ensures |r| <= |atts|
  {
    if atts == [] then []
    else (if atts[0].emailId == emailId then [atts[0]] else []) + AttachmentsOf(atts[1..], emailId)
  }

  /** `GetAttachmentByID`. */
  function AttachmentById(atts: seq<Attachment>, id: int): (r: Option<Attachment>)
    ensures r.Some? <==> exists k :: 0 <= k < |atts| && atts[k].id == id
    ensures r.Some? ==> r.value in atts && r.value.id == id
  {
    if atts == [] then None
    else if atts[0].id == id then Some(atts[0])
    else AttachmentById(atts[1..], id)
  }
}
