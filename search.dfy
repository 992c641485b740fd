/**
 * Search (internal/db/search.go): the fuzzy full-text query built from the
 * user's words, the SQL text and arguments of the filtered search, the
 * recent-emails answer to an empty query and the snippet fallback.  The FTS5
 * engine itself (MATCH, rank, snippet) is a parameter: the rows it returns
 * for a query text and its arguments.
 */
module Search {
  import opened Text
  import opened Records

  /** `truncateText`: at most `maxLen` bytes of the text, then "..." when cut.
      Go panics on a negative `maxLen` (the slice bound), hence the requirement. */
  function TruncateText(text: string, maxLen: int): (r: string)
    requires maxLen >= 0
    ensures |text| <= maxLen ==> r == text
    ensures |text| > maxLen ==> |r| == maxLen + 3 && r[maxLen..] == "..."
    ensures HasPrefix(r, text[..if |text| < maxLen then |text| else maxLen])
  {
    if |text| <= maxLen then text else text[..maxLen] + "..."
  }

  /** The length of the snippet cut from a body when the engine gives none. */
  const SnippetLen: nat := 200

  // ---------------------------------------------------------------------------
  // The fuzzy query.

  /** One fuzzy term: quotes doubled, then the prefix wildcard. */
  function FuzzyTerm(term: string): string {
    EscapeQuotes(term) + "*"
  }

  /** The fuzzy form of every term, in order. */
  function FuzzyTerms(terms: seq<string>): (r: seq<string>)
    ensures |r| == |terms| && forall i :: 0 <= i < |r| ==> r[i] == FuzzyTerm(terms[i])
    decreases |terms|
  {
    if terms == [] then [] else FuzzyTerms(terms[..|terms| - 1]) + [FuzzyTerm(terms[|terms| - 1])]
  }

  /** The MATCH text for a query: its fuzzy terms joined by single spaces. */
  function FuzzyQuery(query: string): string {
    Join(FuzzyTerms(Fields(query)), " ")
  }

  /** The loop filling `fuzzyTerms`, a slice of one entry per term. */
  method BuildFuzzyTerms(terms: seq<string>) returns (fuzzy: seq<string>)
    ensures |fuzzy| == |terms|
    ensures forall i :: 0 <= i < |terms| ==> fuzzy[i] == EscapeQuotes(terms[i]) + "*"
  {
    var buf := new string[|terms|];
    for i := 0 to |terms|
      invariant forall k :: 0 <= k < i ==> buf[k] == EscapeQuotes(terms[k]) + "*"
    {
      buf[i] := EscapeQuotes(terms[i]) + "*";
    }
    fuzzy := buf[..];
  }

  /** `strings.Fields`, the term loop and `strings.Join(fuzzyTerms, " ")`. */
  method BuildFuzzyQuery(query: string) returns (q: string)
    ensures q == FuzzyQuery(query)
  {
    var terms := Fields(query);
    var fuzzy := BuildFuzzyTerms(terms);
    assert fuzzy == FuzzyTerms(terms);
    q := Join(fuzzy, " ");
  }

  /** Doubling quotes adds no white space. */
  lemma {:induction false} EscapeQuotesNoSpace(s: string)
    requires NoSpace(s)
    ensures NoSpace(EscapeQuotes(s)) && |EscapeQuotes(s)| >= |s|
    decreases |s|
  {
    if s != [] {
      EscapeQuotesNoSpace(s[1..]);
      var head := if s[0] == '"' then "\"\"" else [s[0]];
      assert EscapeQuotes(s) == head + EscapeQuotes(s[1..]);
      assert forall k :: 0 <= k < |head| ==> head[k] == s[0];
    }
  }

  /** A fuzzy term of a word is a non-empty word. */
  lemma FuzzyTermIsWord(term: string)
    requires NoSpace(term)
    ensures FuzzyTerm(term) != [] && NoSpace(FuzzyTerm(term))
  {
    EscapeQuotesNoSpace(term);
  }

  /** Reading a fuzzy term back: drop the wildcard, undouble the quotes. */
  function Unfuzzy(w: string): string {
    if w == [] then [] else UnescapeQuotes(w[..|w| - 1])
  }

  /** The fuzzy query holds one word per word of the query, in order, and each
      reads back as the query's word. */
  lemma FuzzyQueryDecodes(query: string)
    ensures |Fields(FuzzyQuery(query))| == |Fields(query)|
    ensures forall i :: 0 <= i < |Fields(query)| ==>
      Fields(FuzzyQuery(query))[i] == FuzzyTerm(Fields(query)[i]) &&
      Unfuzzy(Fields(FuzzyQuery(query))[i]) == Fields(query)[i]
  {
    var words := Fields(query);
    var fuzzy := FuzzyTerms(words);
    forall k | 0 <= k < |fuzzy|
      ensures fuzzy[k] != [] && NoSpace(fuzzy[k])
    {
      FuzzyTermIsWord(words[k]);
    }
    FieldsOfJoin(fuzzy);
    forall i | 0 <= i < |words|
      ensures Unfuzzy(fuzzy[i]) == words[i]
    {
      var e := EscapeQuotes(words[i]);
      assert (e + "*")[..|e + "*"| - 1] == e;
      EscapeQuotesRoundTrip(words[i]);
    }
  }

  // The filtered search: SQL text and arguments.

  /** The parameters of `SearchEmailsWithFiltersAndOffset`. */
  datatype Filters = Filters(
    query: string,
    sender: string,
    hasAttachments: bool,
    dateFrom: string,
    dateTo: string,
    limit: int,
    offset: int)

  /** A bound argument: a string, or the integer limit and offset. */
  datatype Arg = StrArg(s: string) | IntArg(n: int)

  /** The five filters, in the order the code tests them. */
  datatype Condition = MatchTerms | SenderLike | WithAttachments | DateFrom | DateTo

  /** The filters in order, and which of them are on. */
  const AllConditions: seq<Condition> := [MatchTerms, SenderLike, WithAttachments, DateFrom, DateTo]

  function Active(f: Filters): seq<bool> {
    [f.query != "", f.sender != "", f.hasAttachments, f.dateFrom != "", f.dateTo != ""]
  }

  /** The entries of `s` whose flag is set, in order. */
  function Select(s: seq<Condition>, on: seq<bool>): (r: seq<Condition>)
    requires |on| == |s|
    ensures |r| <= |s|
    decreases |s|
  {
    if s == [] then [] else (if on[0] then [s[0]] else []) + Select(s[1..], on[1..])
  }

  /** One entry when the flag is set, none otherwise. */
  function Opt<T>(on: bool, x: T): (r: seq<T>)
    ensures |r| == if on then 1 else 0
  {
    if on then [x] else []
  }

  /** One step of `Select`. */
  lemma SelectStep(s: seq<Condition>, on: seq<bool>)
    requires |s| == |on| > 0
    ensures Select(s, on) == Opt(on[0], s[0]) + Select(s[1..], on[1..])
  {
  }

  /** `Select` over five entries, written out. */
  lemma SelectFive(s: seq<Condition>, on: seq<bool>)
    requires |s| == 5 == |on|
    ensures Select(s, on) == Opt(on[0], s[0]) + Opt(on[1], s[1]) + Opt(on[2], s[2]) + Opt(on[3], s[3]) + Opt(on[4], s[4])
  {
    var s1, o1 := s[1..], on[1..];
    var s2, o2 := s1[1..], o1[1..];
    var s3, o3 := s2[1..], o2[1..];
    var s4, o4 := s3[1..], o3[1..];
    SelectStep(s4, o4);
    assert Select(s4[1..], o4[1..]) == [];
    SelectStep(s3, o3);
    SelectStep(s2, o2);
    SelectStep(s1, o1);
    SelectStep(s, on);
    assert s1[0] == s[1] && s2[0] == s[2] && s3[0] == s[3] && s4[0] == s[4];
    assert o1[0] == on[1] && o2[0] == on[2] && o3[0] == on[3] && o4[0] == on[4];
  }

  /** The `conditions` slice as the code appends to it. */
  function Conditions(f: Filters): seq<Condition> {
    Opt(f.query != "", MatchTerms) + Opt(f.sender != "", SenderLike) + Opt(f.hasAttachments, WithAttachments) +
    Opt(f.dateFrom != "", DateFrom) + Opt(f.dateTo != "", DateTo)
  }

  /** The `args` slice before the limit and offset. */
  function FilterArgs(f: Filters): seq<Arg> {
    Opt(f.query != "", StrArg(FuzzyQuery(f.query))) + Opt(f.sender != "", StrArg("%" + f.sender + "%")) +
    Opt(f.dateFrom != "", StrArg(f.dateFrom)) + Opt(f.dateTo != "", StrArg(f.dateTo))
  }

  function Args(f: Filters): seq<Arg> {
    FilterArgs(f) + [IntArg(f.limit), IntArg(f.offset)]
  }

  // The SQL text is kept as its sequence of words; the text itself is the words
  // joined by single spaces.

  const SelectWords: seq<string> := [
    "SELECT", "e.id,", "e.file_path,", "e.message_id,", "e.subject,", "e.sender,", "e.sender_name,",
    "e.recipients,", "e.cc,", "e.bcc,", "e.date,", "e.body_text,", "e.body_html,",
    "e.has_attachments,", "e.attachment_count,", "e.raw_headers,", "e.file_size,",
    "e.indexed_at,", "e.updated_at"]
  /** The snippet column and the join with the full-text table, when there is a query. */
  const FtsSourceWords: seq<string> := [
    ",", "snippet(emails_fts,", "4,", "'<mark>',", "'</mark>',", "'...',", "32)", "as", "snippet",
    "FROM", "emails", "e", "JOIN", "emails_fts", "ON", "e.id", "=", "emails_fts.rowid"]
  /** An empty snippet column and the plain table, when there is none. */
  const PlainSourceWords: seq<string> := [",", "''", "as", "snippet", "FROM", "emails", "e"]
  const RankOrderWords: seq<string> := ["ORDER", "BY", "rank"]
  const DateOrderWords: seq<string> := ["ORDER", "BY", "e.date", "DESC"]
  const LimitWords: seq<string> := ["LIMIT", "?", "OFFSET", "?"]
  const WhereWord: seq<string> := ["WHERE"]
  const AndWord: seq<string> := ["AND"]

  const MatchWords: seq<string> := ["emails_fts", "MATCH", "?"]
  const SenderWords: seq<string> := ["e.sender", "LIKE", "?"]
  const AttachmentWords: seq<string> := ["e.has_attachments", "=", "1"]
  const DateFromWords: seq<string> := ["e.date", ">=", "?"]
  const DateToWords: seq<string> := ["e.date", "<=", "?"]

  /** The words each filter adds to the WHERE clause. */
  function ConditionWords(c: Condition): seq<string> {
    match c
    case MatchTerms => MatchWords
    case SenderLike => SenderWords
    case WithAttachments => AttachmentWords
    case DateFrom => DateFromWords
    case DateTo => DateToWords
  }

  /** `strings.Join(conditions, " AND ")`, word by word. */
  function AndWords(cs: seq<Condition>): seq<string>
    decreases |cs|
  {
    if cs == [] then []
    else if |cs| == 1 then ConditionWords(cs[0])
    else ConditionWords(cs[0]) + AndWord + AndWords(cs[1..])
  }

  function WhereWords(cs: seq<Condition>): seq<string> {
    if |cs| > 0 then WhereWord + AndWords(cs) else []
  }

  function SourceWords(f: Filters): seq<string> {
    if f.query != "" then FtsSourceWords else PlainSourceWords
  }

  function OrderWords(f: Filters): seq<string> {
    if f.query != "" then RankOrderWords else DateOrderWords
  }

  /** The words of the SQL text the code assembles. */
  function QueryWords(f: Filters): seq<string> {
    SelectWords + SourceWords(f) + WhereWords(Conditions(f)) + OrderWords(f) + LimitWords
  }

  function QueryText(f: Filters): string {
    Join(QueryWords(f), " ")
  }

  /** The first half of the builder: one condition and (but for the attachment
      flag) one argument per active filter. */
  method BuildConditions(f: Filters) returns (conditions: seq<Condition>, args: seq<Arg>)
    ensures conditions == Conditions(f) && args == FilterArgs(f)
  {
    conditions := [];
    args := [];
    if f.query != "" {
      var fuzzyQuery := BuildFuzzyQuery(f.query);
      conditions := conditions + [MatchTerms];
      args := args + [StrArg(fuzzyQuery)];
    }
    ghost var c1, a1 := conditions, args;
    if f.sender != "" {
      conditions := conditions + [SenderLike];
      args := args + [StrArg("%" + f.sender + "%")];
    }
    ghost var c2, a2 := conditions, args;
    if f.hasAttachments {
      conditions := conditions + [WithAttachments];
    }
    ghost var c3 := conditions;
    if f.dateFrom != "" {
      conditions := conditions + [DateFrom];
      args := args + [StrArg(f.dateFrom)];
    }
    ghost var c4, a4 := conditions, args;
    if f.dateTo != "" {
      conditions := conditions + [DateTo];
      args := args + [StrArg(f.dateTo)];
    }
    assert conditions == c4 + Opt(f.dateTo != "", DateTo);
    assert c4 == c3 + Opt(f.dateFrom != "", DateFrom);
    assert c3 == c2 + Opt(f.hasAttachments, WithAttachments);
    assert c2 == c1 + Opt(f.sender != "", SenderLike);
    assert c1 == Opt(f.query != "", MatchTerms);
    assert args == a4 + Opt(f.dateTo != "", StrArg(f.dateTo));
    assert a4 == a2 + Opt(f.dateFrom != "", StrArg(f.dateFrom));
    assert a2 == a1 + Opt(f.sender != "", StrArg("%" + f.sender + "%"));
    assert a1 == Opt(f.query != "", StrArg(FuzzyQuery(f.query)));
  }

  /** The builder: conditions and arguments, then the text put together piece
      by piece, then the limit and offset. */
  method BuildFilteredQuery(f: Filters) returns (sql: string, args: seq<Arg>)
    ensures sql == QueryText(f) && args == Args(f)
    ensures CountChar(sql, '?') == |args|
    ensures args[|args| - 2..] == [IntArg(f.limit), IntArg(f.offset)]
  {
    var conditions;
    conditions, args := BuildConditions(f);
    var words := SelectWords;
    if f.query != "" {
      words := words + FtsSourceWords;
    } else {
      words := words + PlainSourceWords;
    }
    assert words == SelectWords + SourceWords(f);
    if |conditions| > 0 {
      words := words + (WhereWord + AndWords(conditions));
    }
    assert words == SelectWords + SourceWords(f) + WhereWords(conditions);
    if f.query != "" {
      words := words + RankOrderWords;
    } else {
      words := words + DateOrderWords;
    }
    assert words == SelectWords + SourceWords(f) + WhereWords(conditions) + OrderWords(f);
    words := words + LimitWords;
    args := args + [IntArg(f.limit), IntArg(f.offset)];
    assert words == QueryWords(f);
    sql := Join(words, " ");
    PlaceholdersMatchArgs(f);
  }

  /** The conditions are the active filters, in the fixed order MATCH, sender,
      attachments, date from, date to. */
  lemma ConditionsInOrder(f: Filters)
    ensures Conditions(f) == Select(AllConditions, Active(f))
  {
    SelectFive(AllConditions, Active(f));
  }

  /** A WHERE clause appears exactly when some filter is active, and then
      holds the conditions separated by AND. */
  lemma WhereOnlyWithFilters(f: Filters)
    ensures WhereWords(Conditions(f)) == [] <==>
      f.query == "" && f.sender == "" && !f.hasAttachments && f.dateFrom == "" && f.dateTo == ""
  {
  }

  /** Between the WHERE and the order: each condition's words, with AND between
      consecutive ones. */
  lemma {:induction false} AndWordsShape(cs: seq<Condition>)
    requires |cs| > 1
    ensures AndWords(cs) == ConditionWords(cs[0]) + AndWord + AndWords(cs[1..])
    ensures |AndWords(cs)| == 4 * |cs| - 1
    decreases |cs|
  {
    if |cs| > 2 {
      AndWordsShape(cs[1..]);
    } else {
      assert AndWords(cs[1..]) == ConditionWords(cs[1]);
    }
  }

  /** The sender pattern matches the sender anywhere in the column. */
  lemma SenderArgument(f: Filters)
    requires f.sender != ""
    ensures Args(f)[if f.query != "" then 1 else 0] == StrArg("%" + f.sender + "%")
  {
  }

  /** Ranking by relevance exactly when there is a query; by descending date otherwise. */
  lemma OrderFollowsQuery(f: Filters)
    ensures QueryWords(f)[|QueryWords(f)| - 7..] == RankOrderWords + LimitWords <==> f.query != ""
    ensures f.query == "" ==> QueryWords(f)[|QueryWords(f)| - 8..] == DateOrderWords + LimitWords
  {
    var head := SelectWords + SourceWords(f) + WhereWords(Conditions(f));
    OrderTail(head, OrderWords(f), LimitWords);
    RankIsNotDate();
  }

  lemma RankIsNotDate()
    ensures |DateOrderWords| == 4 && |RankOrderWords| == 3
    ensures DateOrderWords[1..] + LimitWords != RankOrderWords + LimitWords
  {
    var d, r := DateOrderWords[1..] + LimitWords, RankOrderWords + LimitWords;
    assert d[0] == "BY" && r[0] == "ORDER";
  }

  lemma OrderTail(head: seq<string>, order: seq<string>, limit: seq<string>)
    requires |order| >= 3 && |limit| == 4
    ensures |head + order + limit| >= 7
    ensures (head + order + limit)[|head + order + limit| - 7..] == order[|order| - 3..] + limit
    ensures (head + order + limit)[|head + order + limit| - |order| - 4..] == order + limit
  {
    var s := head + order + limit;
    assert s[|s| - 7..] == order[|order| - 3..] + limit;
    assert s[|s| - |order| - 4..] == order + limit;
  }

  // --- counting placeholders

  lemma {:induction false} CountCharAbsent(s: string, c: char)
    requires c !in s
    ensures CountChar(s, c) == 0
    decreases |s|
  {
    if s != [] {
      assert s[0] in s;
      assert forall k :: 0 <= k < |s[1..]| ==> s[1..][k] in s;
      CountCharAbsent(s[1..], c);
    }
  }

  /** The placeholders in a list of words, in total. */
  function CountAll(words: seq<string>, c: char): nat
    decreases |words|
  {
    if words == [] then 0 else CountChar(words[0], c) + CountAll(words[1..], c)
  }

  lemma {:induction false} CountAllAppend(x: seq<string>, y: seq<string>, c: char)
    ensures CountAll(x + y, c) == CountAll(x, c) + CountAll(y, c)
    decreases |x|
  {
    if x == [] {
      assert x + y == y;
    } else {
      assert (x + y)[1..] == x[1..] + y;
      CountAllAppend(x[1..], y, c);
    }
  }

  /** The placeholders of words joined by a separator without any add up. */
  lemma {:induction false} CountCharJoin(words: seq<string>, sep: string, c: char)
    requires c !in sep
    ensures CountChar(Join(words, sep), c) == CountAll(words, c)
    decreases |words|
  {
    if |words| == 1 {
      assert CountAll(words[1..], c) == 0;
    } else if |words| > 1 {
      CountCharJoin(words[1..], sep, c);
      CountCharAppend(words[0] + sep, Join(words[1..], sep), c);
      CountCharAppend(words[0], sep, c);
      CountCharAbsent(sep, c);
    }
  }

  predicate Unmarked(words: seq<string>) {
    forall k :: 0 <= k < |words| ==> '?' !in words[k]
  }

  lemma {:induction false} UnmarkedCount(words: seq<string>)
    requires Unmarked(words)
    ensures CountAll(words, '?') == 0
    decreases |words|
  {
    if words != [] {
      CountCharAbsent(words[0], '?');
      UnmarkedCount(words[1..]);
    }
  }

  lemma UnmarkedParts(ws: seq<string>, i: nat, j: nat)
    requires i <= j <= |ws|
    requires Unmarked(ws[..i]) && Unmarked(ws[i..j]) && Unmarked(ws[j..])
    ensures Unmarked(ws)
  {
    forall k | 0 <= k < |ws|
      ensures '?' !in ws[k]
    {
      if k < i {
        assert ws[..i][k] == ws[k];
      } else if k < j {
        assert ws[i..j][k - i] == ws[k];
      } else {
        assert ws[j..][k - j] == ws[k];
      }
    }
  }

  lemma SelectHeadUnmarked()
    ensures Unmarked(SelectWords[..7])
  {
  }

  lemma SelectMiddleUnmarked()
    ensures Unmarked(SelectWords[7..13])
  {
  }

  lemma SelectTailUnmarked()
    ensures Unmarked(SelectWords[13..])
  {
  }

  lemma FtsHeadUnmarked()
    ensures Unmarked(FtsSourceWords[..9])
  {
  }

  lemma FtsTailUnmarked()
    ensures Unmarked(FtsSourceWords[9..])
  {
  }

  lemma SelectUnmarked()
    ensures CountAll(SelectWords, '?') == 0
  {
    SelectHeadUnmarked();
    SelectMiddleUnmarked();
    SelectTailUnmarked();
    UnmarkedParts(SelectWords, 7, 13);
    UnmarkedCount(SelectWords);
  }

  lemma FtsUnmarked()
    ensures CountAll(FtsSourceWords, '?') == 0
  {
    FtsHeadUnmarked();
    FtsTailUnmarked();
    UnmarkedParts(FtsSourceWords, 9, 9);
    UnmarkedCount(FtsSourceWords);
  }

  lemma PlainUnmarked()
    ensures Unmarked(PlainSourceWords)
  {
  }

  lemma OrdersUnmarked()
    ensures Unmarked(RankOrderWords) && Unmarked(DateOrderWords)
  {
  }

  /** No placeholder in the columns and table of either form. */
  lemma SourceUnmarked(f: Filters)
    ensures CountAll(SourceWords(f), '?') == 0
  {
    if f.query != "" {
      FtsUnmarked();
    } else {
      PlainUnmarked();
      UnmarkedCount(PlainSourceWords);
    }
  }

  /** No placeholder in either order. */
  lemma OrderUnmarked(f: Filters)
    ensures CountAll(OrderWords(f), '?') == 0
  {
    OrdersUnmarked();
    UnmarkedCount(OrderWords(f));
  }

  /** Words free of placeholders, then one placeholder. */
  lemma {:induction false} CountMarkAfter(ws: seq<string>)
    requires |ws| >= 1 && Unmarked(ws[..|ws| - 1]) && ws[|ws| - 1] == "?"
    ensures CountAll(ws, '?') == 1
  {
    var n := |ws| - 1;
    assert ws == ws[..n] + [ws[n]];
    CountAllAppend(ws[..n], [ws[n]], '?');
    UnmarkedCount(ws[..n]);
    assert CountChar(ws[n], '?') == 1;
    assert [ws[n]][1..] == [];
  }

  /** The placeholders a filter brings: one, but for the attachment flag. */
  function Placeholders(c: Condition): nat {
    if c == WithAttachments then 0 else 1
  }

  lemma MatchSenderMarks()
    ensures Unmarked(MatchWords[..2]) && MatchWords[2] == "?"
    ensures Unmarked(SenderWords[..2]) && SenderWords[2] == "?"
  {
  }

  lemma DateMarks()
    ensures Unmarked(DateFromWords[..2]) && DateFromWords[2] == "?"
    ensures Unmarked(DateToWords[..2]) && DateToWords[2] == "?"
  {
  }

  lemma AttachmentUnmarked()
    ensures Unmarked(AttachmentWords)
  {
  }

  lemma ConditionMarks(c: Condition)
    ensures CountAll(ConditionWords(c), '?') == Placeholders(c)
  {
    MatchSenderMarks();
    DateMarks();
    match c
    case MatchTerms => CountMarkAfter(MatchWords);
    case SenderLike => CountMarkAfter(SenderWords);
    case WithAttachments =>
      AttachmentUnmarked();
      UnmarkedCount(AttachmentWords);
    case DateFrom => CountMarkAfter(DateFromWords);
    case DateTo => CountMarkAfter(DateToWords);
  }

  lemma LimitWordsShape()
    ensures Unmarked(LimitWords[..1]) && LimitWords[1] == "?"
    ensures Unmarked(LimitWords[2..3]) && LimitWords[3] == "?"
  {
  }

  lemma LimitMarks()
    ensures CountAll(LimitWords, '?') == 2
  {
    LimitWordsShape();
    var w := LimitWords;
    CountMarkAfter(w[..2]);
    CountMarkAfter(w[2..]);
    assert w[..2][..1] == w[..1] && w[2..][..1] == w[2..3];
    CountAllAppend(w[..2], w[2..], '?');
    assert w == w[..2] + w[2..];
  }

  /** The placeholders of the filters, in total. */
  function PlaceholdersAll(cs: seq<Condition>): nat
    decreases |cs|
  {
    if cs == [] then 0 else Placeholders(cs[0]) + PlaceholdersAll(cs[1..])
  }

  lemma {:induction false} AndWordsMarks(cs: seq<Condition>)
    ensures CountAll(AndWords(cs), '?') == PlaceholdersAll(cs)
    decreases |cs|
  {
    if |cs| == 1 {
      ConditionMarks(cs[0]);
      assert PlaceholdersAll(cs[1..]) == 0;
    } else if |cs| > 1 {
      ConditionMarks(cs[0]);
      AndWordsMarks(cs[1..]);
      KeywordsUnmarked();
      CountAllAppend(ConditionWords(cs[0]) + AndWord, AndWords(cs[1..]), '?');
      CountAllAppend(ConditionWords(cs[0]), AndWord, '?');
    }
  }

  lemma {:induction false} PlaceholdersAppend(x: seq<Condition>, y: seq<Condition>)
    ensures PlaceholdersAll(x + y) == PlaceholdersAll(x) + PlaceholdersAll(y)
    decreases |x|
  {
    if x == [] {
      assert x + y == y;
    } else {
      assert (x + y)[1..] == x[1..] + y;
      PlaceholdersAppend(x[1..], y);
    }
  }

  lemma PlaceholdersOpt(on: bool, c: Condition)
    ensures PlaceholdersAll(Opt(on, c)) == if on then Placeholders(c) else 0
  {
    if on {
      assert Opt(on, c)[1..] == [];
    }
  }

  /** The placeholders of the filters switched on by five flags. */
  lemma FlagsPlaceholders(b0: bool, b1: bool, b2: bool, b3: bool, b4: bool)
    ensures PlaceholdersAll(Opt(b0, MatchTerms) + Opt(b1, SenderLike) + Opt(b2, WithAttachments) + Opt(b3, DateFrom) + Opt(b4, DateTo)) ==
      (if b0 then 1 else 0) + (if b1 then 1 else 0) + (if b3 then 1 else 0) + (if b4 then 1 else 0)
  {
    var c1, c2, c3, c4, c5 := Opt(b0, MatchTerms), Opt(b1, SenderLike), Opt(b2, WithAttachments), Opt(b3, DateFrom), Opt(b4, DateTo);
    PlaceholdersOpt(b0, MatchTerms);
    PlaceholdersOpt(b1, SenderLike);
    PlaceholdersOpt(b2, WithAttachments);
    PlaceholdersOpt(b3, DateFrom);
    PlaceholdersOpt(b4, DateTo);
    PlaceholdersAppend(c1 + c2 + c3 + c4, c5);
    PlaceholdersAppend(c1 + c2 + c3, c4);
    PlaceholdersAppend(c1 + c2, c3);
    PlaceholdersAppend(c1, c2);
  }

  /** Each filter contributes as many placeholders as arguments. */
  lemma ConditionPlaceholders(f: Filters)
    ensures PlaceholdersAll(Conditions(f)) == |FilterArgs(f)|
  {
    FlagsPlaceholders(f.query != "", f.sender != "", f.hasAttachments, f.dateFrom != "", f.dateTo != "");
  }

  lemma KeywordsUnmarked()
    ensures CountAll(WhereWord, '?') == 0 && CountAll(AndWord, '?') == 0
  {
    assert Unmarked(WhereWord) && Unmarked(AndWord);
    UnmarkedCount(WhereWord);
    UnmarkedCount(AndWord);
  }

  /** A WHERE clause holds the placeholders of its conditions. */
  lemma WhereMarks(cs: seq<Condition>)
    ensures CountAll(WhereWords(cs), '?') == PlaceholdersAll(cs)
  {
    AndWordsMarks(cs);
    if |cs| > 0 {
      KeywordsUnmarked();
      CountAllAppend(WhereWord, AndWords(cs), '?');
    }
  }

  /** The WHERE clause holds one placeholder per filter argument. */
  lemma WherePlaceholders(f: Filters)
    ensures CountAll(WhereWords(Conditions(f)), '?') == |FilterArgs(f)|
  {
    ConditionPlaceholders(f);
    WhereMarks(Conditions(f));
  }

  /** Words joined by spaces: the placeholders of the third and fifth part,
      when the others have none. */
  lemma JoinedCount(a: seq<string>, b: seq<string>, c: seq<string>, d: seq<string>, e: seq<string>)
    requires CountAll(a, '?') == 0 && CountAll(b, '?') == 0 && CountAll(d, '?') == 0
    ensures CountChar(Join(a + b + c + d + e, " "), '?') == CountAll(c, '?') + CountAll(e, '?')
  {
    CountAllAppend(a + b + c + d, e, '?');
    CountAllAppend(a + b + c, d, '?');
    CountAllAppend(a + b, c, '?');
    CountAllAppend(a, b, '?');
    var space := " ";
    CountCharJoin(a + b + c + d + e, space, '?');
  }

  /** The number of `?` placeholders in the SQL text equals the number of arguments. */
  lemma PlaceholdersMatchArgs(f: Filters)
    ensures CountChar(QueryText(f), '?') == |Args(f)|
  {
    SelectUnmarked();
    SourceUnmarked(f);
    OrderUnmarked(f);
    WherePlaceholders(f);
    LimitMarks();
    JoinedCount(SelectWords, SourceWords(f), WhereWords(Conditions(f)), OrderWords(f), LimitWords);
  }

  // ---------------------------------------------------------------------------
  // Results.

  /** `EmailSearchResult`: the row and its snippet. */
  datatype SearchResult = SearchResult(email: Email, snippet: string)

  /** The empty-query answer: each recent email with the start of its body. */
  method RecentResults(emails: seq<Email>) returns (results: seq<SearchResult>)
    ensures |results| == |emails|
    ensures forall i :: 0 <= i < |emails| ==>
      results[i] == SearchResult(emails[i], TruncateText(emails[i].bodyTextPreview, SnippetLen))
  {
    var buf := new SearchResult[|emails|];
    for i := 0 to |emails|
      invariant forall k :: 0 <= k < i ==>
        buf[k] == SearchResult(emails[k], TruncateText(emails[k].bodyTextPreview, SnippetLen))
    {
      buf[i] := SearchResult(emails[i], TruncateText(emails[i].bodyTextPreview, SnippetLen));
    }
    results := buf[..];
  }

  /** `SearchEmails`: with no query, the most recent emails (as `ListEmails(limit, 0)`)
      with a cut-down body as snippet; otherwise what the engine answers for the
      fuzzy MATCH text and the limit. */
  method SearchEmails(table: seq<Email>, query: string, limit: int, fts: (string, int) -> seq<SearchResult>)
    returns (results: seq<SearchResult>)
    ensures query == "" ==>
      |results| == |ListEmails(table, limit, 0)| &&
      forall i :: 0 <= i < |results| ==>
        results[i].email == ListEmails(table, limit, 0)[i] &&
        results[i].snippet == TruncateText(results[i].email.bodyTextPreview, SnippetLen)
    ensures query != "" ==> results == fts(FuzzyQuery(query), limit)
  {
    if query == "" {
      var emails := ListEmails(table, limit, 0);
      results := RecentResults(emails);
    } else {
      var fuzzyQuery := BuildFuzzyQuery(query);
      results := fts(fuzzyQuery, limit);
    }
  }

  /** The scan loop of the filtered search: an empty snippet falls back to the
      start of the body. */
  method FillSnippets(rows: seq<SearchResult>) returns (results: seq<SearchResult>)
    ensures |results| == |rows|
    ensures forall i :: 0 <= i < |rows| ==> results[i].email == rows[i].email
    ensures forall i :: 0 <= i < |rows| ==>
      results[i].snippet == Snippet(rows[i])
  {
    results := [];
    for i := 0 to |rows|
      invariant |results| == i
      invariant forall k :: 0 <= k < i ==> results[k].email == rows[k].email
      invariant forall k :: 0 <= k < i ==> results[k].snippet == Snippet(rows[k])
    {
      var result := rows[i];
      if result.snippet == "" {
        result := result.(snippet := TruncateText(result.email.bodyTextPreview, SnippetLen));
      }
      results := results + [result];
    }
  }

  /** The snippet shown for a row: the engine's, or the start of the body when it gave none. */
  function Snippet(row: SearchResult): (s: string)
    ensures s == "" ==> row.email.bodyTextPreview == ""
    ensures row.snippet == "" ==> HasPrefix(s, row.email.bodyTextPreview[..if |row.email.bodyTextPreview| < SnippetLen then |row.email.bodyTextPreview| else SnippetLen])
  {
    if row.snippet == "" then TruncateText(row.email.bodyTextPreview, SnippetLen) else row.snippet
  }

  /** `SearchEmailsWithFiltersAndOffset`: build the text and arguments, run them
      on the engine, fill in missing snippets. */
  method SearchWithFilters(f: Filters, engine: (string, seq<Arg>) -> seq<SearchResult>)
    returns (results: seq<SearchResult>)
    ensures |results| == |engine(QueryText(f), Args(f))|
    ensures forall i :: 0 <= i < |results| ==>
      results[i].email == engine(QueryText(f), Args(f))[i].email &&
      results[i].snippet == Snippet(engine(QueryText(f), Args(f))[i]) &&
      (results[i].snippet == "" ==> results[i].email.bodyTextPreview == "")
  {
    var sql, args := BuildFilteredQuery(f);
    var rows := engine(sql, args);
    results := FillSnippets(rows);
  }
}
