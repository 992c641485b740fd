/**
 * The parts of the `.eml` parser that are the program's own logic
 * (internal/parser/eml.go): splitting off the raw header block, splitting a
 * list of message ids, and folding the MIME parts of a message into its
 * bodies and attachments.  Header decoding and MIME parsing proper belong to
 * the mail library; the model receives their output as values.
 */
module Eml {
  import opened Wrappers
  import opened Text

  /** `parser.ParsedAttachment`.  Data bytes are a byte string. */
  datatype ParsedAttachment = ParsedAttachment(filename: string, contentType: string, size: int, data: string)

  /** `parser.ParsedEmail`; `date` is the header date or the fallback clock value. */
  datatype ParsedEmail = ParsedEmail(
    messageId: string,
    subject: string,
    sender: string,
    senderName: string,
    recipients: seq<string>,
    cc: seq<string>,
    bcc: seq<string>,
    date: int,
    bodyText: string,
    bodyHtml: string,
    attachments: seq<ParsedAttachment>,
    rawHeaders: string)

  /** One MIME part as the mail reader hands it over: an inline part with its
      content type and decoded body, an attachment with its file name, content
      type and data, or a part whose header or body could not be read. */
  datatype Part =
    | Inline(contentType: string, body: string)
    | AttachmentPart(filename: string, contentType: string, data: string)
    | Unreadable

  /** Why reading the parts failed. */
  datatype PartError = ReadFailed(index: nat)

  /** `strings.SplitN(s, sep, 2)` for a non-empty separator. */
  function SplitOnce(s: string, sep: string): (r: seq<string>)
    requires sep != ""
    ensures 1 <= |r| <= 2
    ensures |r| == 2 <==> Contains(s, sep)
    ensures |r| == 1 ==> r[0] == s
    ensures |r| == 2 ==> |r[0]| + |sep| + |r[1]| == |s| && s == r[0] + sep + r[1]
    ensures |r| == 2 ==> OccursAt(s, sep, |r[0]|) && forall j :: 0 <= j < |r[0]| ==> !OccursAt(s, sep, j)
  {
    match IndexOf(s, sep)
    case None => [s]
    case Some(i) =>
      assert s == s[..i] + sep + s[i + |sep|..];
      [s[..i], s[i + |sep|..]]
  }

  /** Splitting once and joining again with the separator gives the input back. */
  lemma SplitOnceJoin(s: string, sep: string)
    requires sep != ""
    ensures Join(SplitOnce(s, sep), sep) == s
  {
    var r := SplitOnce(s, sep);
    if |r| == 2 {
      assert r == [r[0]] + [r[1]];
      JoinAppend([r[0]], [r[1]], sep);
    }
  }

  const CrLfCrLf: string := "\r\n\r\n"
  const LfLf: string := "\n\n"

  /** `extractRawHeaders`: the header block ends at the first blank line, written
      with CRLF line ends or, failing that, with bare LF. */
  function ExtractRawHeaders(content: string): (r: string)
    ensures HasPrefix(content, r)
    ensures Contains(content, CrLfCrLf) ==>
      OccursAt(content, CrLfCrLf, |r|) && forall j :: 0 <= j < |r| ==> !OccursAt(content, CrLfCrLf, j)
    ensures !Contains(content, CrLfCrLf) && Contains(content, LfLf) ==>
      OccursAt(content, LfLf, |r|) && forall j :: 0 <= j < |r| ==> !OccursAt(content, LfLf, j)
    ensures !Contains(content, CrLfCrLf) && !Contains(content, LfLf) ==> r == content
  {
    var parts := SplitOnce(content, CrLfCrLf);
    var parts := if |parts| < 2 then SplitOnce(content, LfLf) else parts;
    // SplitN never returns an empty slice, so Go's fallback to "" is dead code.
    parts[0]
  }

  /** `parseMessageIDList`: the white-space separated ids, trimmed, empty ones dropped. */
  method ParseMessageIdList(s: string) returns (ids: seq<string>)
    ensures ids == Fields(s)
    ensures forall k :: 0 <= k < |ids| ==> ids[k] != "" && NoSpace(ids[k])
  {
    ids := [];
    var parts := Fields(s);
    for i := 0 to |parts|
      invariant ids == parts[..i]
    {
      var part := parts[i];
      TrimSpaceOfTrimmed(part);
      part := TrimSpace(part);
      if part != "" {
        ids := ids + [part];
      }
    }
  }

  /** Ids written out separated by single spaces are read back as they were. */
  lemma MessageIdListRoundTrip(ids: seq<string>)
    requires forall k :: 0 <= k < |ids| ==> ids[k] != "" && NoSpace(ids[k])
    ensures Fields(Join(ids, " ")) == ids
  {
    FieldsOfJoin(ids);
  }

  predicate IsPlain(p: Part) {
    p.Inline? && HasPrefix(p.contentType, "text/plain")
  }

  predicate IsHtml(p: Part) {
    p.Inline? && !HasPrefix(p.contentType, "text/plain") && HasPrefix(p.contentType, "text/html")
  }

  /** Part `k` is the first text/plain part with a non-empty body. */
  predicate FirstFilledPlain(ps: seq<Part>, k: int) {
    0 <= k < |ps| && IsPlain(ps[k]) && ps[k].body != "" &&
    forall j :: 0 <= j < k && IsPlain(ps[j]) ==> ps[j].body == ""
  }

  /** The body of the first text/plain part whose body is not empty, or "". */
  function FirstPlainBody(ps: seq<Part>): string {
    if ps == [] then ""
    else if IsPlain(ps[0]) && ps[0].body != "" then ps[0].body
    else FirstPlainBody(ps[1..])
  }

  /** `FirstPlainBody` is empty exactly when no plain-text part has a body, and
      otherwise it is the body of the first one that has. */
  lemma {:induction false} FirstPlainBodyIsFirst(ps: seq<Part>)
    ensures FirstPlainBody(ps) == "" <==> forall k :: 0 <= k < |ps| && IsPlain(ps[k]) ==> ps[k].body == ""
    ensures FirstPlainBody(ps) != "" ==> exists k :: FirstFilledPlain(ps, k) && ps[k].body == FirstPlainBody(ps)
  {
    if ps != [] {
      if IsPlain(ps[0]) && ps[0].body != "" {
        assert FirstFilledPlain(ps, 0);
      } else {
        var r := FirstPlainBody(ps[1..]);
        FirstPlainBodyIsFirst(ps[1..]);
        assert forall k :: 1 <= k < |ps| ==> ps[k] == ps[1..][k - 1];
        if r != "" {
          var k :| FirstFilledPlain(ps[1..], k) && ps[1..][k].body == r;
          assert FirstFilledPlain(ps, k + 1);
        }
      }
    }
  }

  lemma {:induction false} FirstPlainBodyAppend(ps: seq<Part>, p: Part)
    ensures FirstPlainBody(ps + [p]) ==
      if FirstPlainBody(ps) == "" && IsPlain(p) then p.body else FirstPlainBody(ps)
  {
    if ps != [] {
      assert (ps + [p])[1..] == ps[1..] + [p];
      FirstPlainBodyAppend(ps[1..], p);
    }
  }

  /** The body of the last text/html part, or "". */
  function LastHtmlBody(ps: seq<Part>): string {
    if ps == [] then ""
    else if IsHtml(ps[|ps| - 1]) then ps[|ps| - 1].body
    else LastHtmlBody(ps[..|ps| - 1])
  }

  /** `LastHtmlBody` is "" when there is no HTML part, and otherwise the body of
      an HTML part that no later HTML part follows. */
  lemma {:induction false} LastHtmlBodyIsLast(ps: seq<Part>)
    ensures (forall k :: 0 <= k < |ps| ==> !IsHtml(ps[k])) ==> LastHtmlBody(ps) == ""
    ensures (exists k :: 0 <= k < |ps| && IsHtml(ps[k])) ==>
      exists k :: 0 <= k < |ps| && IsHtml(ps[k]) && ps[k].body == LastHtmlBody(ps) &&
                  forall j :: k < j < |ps| ==> !IsHtml(ps[j])
  {
    if ps != [] && !IsHtml(ps[|ps| - 1]) {
      var init := ps[..|ps| - 1];
      LastHtmlBodyIsLast(init);
      assert forall k :: 0 <= k < |init| ==> init[k] == ps[k];
    }
  }

  lemma LastHtmlBodyAppend(ps: seq<Part>, p: Part)
    ensures LastHtmlBody(ps + [p]) == if IsHtml(p) then p.body else LastHtmlBody(ps)
  {
    assert (ps + [p])[..|ps|] == ps;
  }

  /** The attachment parts, in part order. */
  function AttachmentsIn(ps: seq<Part>): (r: seq<ParsedAttachment>)
    ensures |r| <= |ps|
    ensures forall k :: 0 <= k < |r| ==> r[k].size == |r[k].data|
  {
    if ps == [] then []
    else
      var first := match ps[0]
        case AttachmentPart(f, ct, d) => [ParsedAttachment(f, ct, |d|, d)]
        case _ => [];
      first + AttachmentsIn(ps[1..])
  }

  lemma {:induction false} AttachmentsInAppend(ps: seq<Part>, qs: seq<Part>)
    ensures AttachmentsIn(ps + qs) == AttachmentsIn(ps) + AttachmentsIn(qs)
  {
    if ps == [] {
      assert ps + qs == qs;
    } else {
      assert (ps + qs)[0] == ps[0];
      assert (ps + qs)[1..] == ps[1..] + qs;
      AttachmentsInAppend(ps[1..], qs);
    }
  }

  /** Every attachment part, and nothing else, becomes an attachment. */
  lemma {:induction false} AttachmentsInExactly(ps: seq<Part>)
    ensures forall a :: a in AttachmentsIn(ps) <==>
      exists k :: 0 <= k < |ps| && ps[k] == AttachmentPart(a.filename, a.contentType, a.data) && a.size == |a.data|
  {
    if ps != [] {
      AttachmentsInExactly(ps[1..]);
      assert forall k :: 1 <= k < |ps| ==> ps[k] == ps[1..][k - 1];
      forall a | a in AttachmentsIn(ps)
        ensures exists k :: 0 <= k < |ps| && ps[k] == AttachmentPart(a.filename, a.contentType, a.data) && a.size == |a.data|
      {
        if a !in AttachmentsIn(ps[1..]) {
          assert ps[0] == AttachmentPart(a.filename, a.contentType, a.data) && a.size == |a.data|;
        } else {
          var k :| 0 <= k < |ps[1..]| && ps[1..][k] == AttachmentPart(a.filename, a.contentType, a.data) && a.size == |a.data|;
          assert ps[k + 1] == ps[1..][k];
        }
      }
      forall a: ParsedAttachment, k: int | 0 <= k < |ps| && ps[k] == AttachmentPart(a.filename, a.contentType, a.data) && a.size == |a.data|
        ensures a in AttachmentsIn(ps)
      {
        if k > 0 {
          assert ps[1..][k - 1] == ps[k];
        }
      }
    }
  }

  /** The attachment a single part contributes. */
  function AttachmentOf(p: Part): seq<ParsedAttachment> {
    AttachmentsIn([p])
  }

  /** How each of the three collections grows by one more part. */
  lemma PrefixStep(parts: seq<Part>, i: nat)
    requires i < |parts|
    ensures FirstPlainBody(parts[..i + 1]) ==
      if FirstPlainBody(parts[..i]) == "" && IsPlain(parts[i]) then parts[i].body else FirstPlainBody(parts[..i])
    ensures LastHtmlBody(parts[..i + 1]) == if IsHtml(parts[i]) then parts[i].body else LastHtmlBody(parts[..i])
    ensures AttachmentsIn(parts[..i + 1]) == AttachmentsIn(parts[..i]) + AttachmentOf(parts[i])
  {
    assert parts[..i + 1] == parts[..i] + [parts[i]];
    FirstPlainBodyAppend(parts[..i], parts[i]);
    LastHtmlBodyAppend(parts[..i], parts[i]);
    AttachmentsInAppend(parts[..i], [parts[i]]);
  }

  /** What the part loop of `ParseEML` collects. */
  datatype Content = Content(bodyText: string, bodyHtml: string, attachments: seq<ParsedAttachment>)

  /** The part loop of `ParseEML`: the first non-empty plain-text body is kept,
      every HTML body replaces the one before, attachments are appended with
      their length as size, and any unreadable part fails the whole parse. */
  method ReadParts(parts: seq<Part>) returns (r: Result<Content, PartError>)
    ensures r.Err? <==> exists k :: 0 <= k < |parts| && parts[k].Unreadable?
    ensures r.Err? ==> (r.error.index < |parts| && parts[r.error.index].Unreadable? &&
      forall j :: 0 <= j < r.error.index ==> !parts[j].Unreadable?)
    ensures r.Ok? ==> r.value == Content(FirstPlainBody(parts), LastHtmlBody(parts), AttachmentsIn(parts))
  {
    var bodyText := "";
    var bodyHtml := "";
    var attachments := [];
    for i := 0 to |parts|
      invariant forall j :: 0 <= j < i ==> !parts[j].Unreadable?
      invariant bodyText == FirstPlainBody(parts[..i])
      invariant bodyHtml == LastHtmlBody(parts[..i])
      invariant attachments == AttachmentsIn(parts[..i])
    {
      var part := parts[i];
      if part.Unreadable? {
        return Err(ReadFailed(i));
      }
      PrefixStep(parts, i);
      if part.Inline? {
        if HasPrefix(part.contentType, "text/plain") {
          if bodyText == "" {
            bodyText := part.body;
          }
        } else if HasPrefix(part.contentType, "text/html") {
          bodyHtml := part.body;
        }
      } else {
        assert AttachmentOf(part) == [ParsedAttachment(part.filename, part.contentType, |part.data|, part.data)];
        attachments := attachments + [ParsedAttachment(part.filename, part.contentType, |part.data|, part.data)];
      }
    }
    assert parts[..|parts|] == parts;
    return Ok(Content(bodyText, bodyHtml, attachments));
  }
}
