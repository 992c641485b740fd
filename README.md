# eml-viewer core, modelled in Dafny

eml-viewer indexes a directory of `.eml` files into a SQLite metadata store.
It threads the stored messages into conversations and serves them over HTTP.
This project models the parts of that program with checkable logic and proves
what they promise:

- **Path resolution** (`ResolveEmailPath`): a stored relative path either
  resolves under the configured emails root or is rejected. `filepath.Clean`,
  `Join`, `Abs` and `Base` are modelled lexically on `/`-separated elements.
- **The metadata store** (`internal/db/emails.go`): a class `DB` holding the
  `emails` and `attachments` tables as sequences in rowid order, with the
  AUTOINCREMENT counters and the root path.
  - Single and batched inserts, existence checks and deletes.
  - Transactions are all-or-nothing. A statement that fails is a parameter of
    the operation.
  - The UNIQUE `file_path` constraint is an invariant of the class.
  - The recipient frequency count and its in-place exchange sort.
  - The pairing of stored attachment rows with the attachments parsed from the
    `.eml` file.
- **Conversation threading** (`internal/db/conversations.go`):
  - the reply tree, with its shared visited set, depth bound 50 and reply
    counts;
  - the upward walk to a thread's root, guarded against cycles;
  - the flat collection of a thread;
  - the root-email filter;
  - the References list.
- **Search** (`internal/db/search.go`):
  - the fuzzy FTS query;
  - the WHERE / ORDER BY / LIMIT builder and its argument list;
  - the empty-query branch;
  - snippet fallback and `truncateText`.
- **Parsing** (`internal/parser/eml.go`): `extractRawHeaders`,
  `parseMessageIDList`, and the fold over MIME parts that picks the text body,
  the HTML body and the attachments.
- **Indexing bookkeeping** (`internal/indexer/indexer.go`):
  - the per-file decision of `processFile` over an abstract store and an
    abstract per-file environment (existence check, parse, stat, insert);
  - the aggregation of statuses into `IndexResult`;
  - the progress callback;
  - the independence of the counts from the order in which workers finish.
- **Handler helpers**: `sanitizeFilename`, `formatSender`, the unit selection
  of `formatSize`, and `truncate`.

Strings are byte strings (`seq<char>`, one character per byte). Whitespace is
ASCII whitespace.

Modules:

| module | file | models |
|---|---|---|
| `Wrappers` | wrappers.dfy | `Option`, `Result` |
| `Text` | text.dfy | the Go `strings` and `strconv` functions used by the core |
| `Paths` | paths.dfy | lexical `filepath.Clean`, `Join`, `Abs`, `Base` |
| `Records` | records.dfy | `Email` and `Attachment` rows, the declarative table queries |
| `Resolve` | resolve.dfy | `ResolveEmailPath` |
| `Store` | store.dfy | class `DB` and the operations of emails.go |
| `Recipients` | recipients.dfy | recipient counting and the exchange sort |
| `Conversations` | conversations.dfy | conversations.go |
| `Search` | search.dfy | search.go |
| `Eml` | eml.dfy | eml.go |
| `Handlers` | handlers.dfy | the handler helpers |
| `Indexer` | indexer.dfy | indexer.go |

## Model

| member | source | states |
|---|---|---|
| Records.InsertByDate | internal/db/conversations.go:99 | inserting into a date-sorted list keeps it sorted and adds exactly that email |
| Records.SortByDate | internal/db/emails.go:191 | the result is ordered by date (NULL dates first when ascending, last when descending) and is a permutation of the input |
| Records.Page | internal/db/emails.go:192 | `LIMIT ? OFFSET ?`: the result is the contiguous slice starting at the clamped offset, with length `limit` (all the rest when `limit` is negative or too large) |
| Records.EmailById | internal/db/emails.go:160-181 | `GetEmailByID`: Some exactly when a row has that id, and then it is that row; None (nil, no error) for a missing id |
| Records.LookupByMessageId | internal/db/conversations.go:59-84 | `GetEmailsByMessageID`: Some exactly when the id is non-empty and some row has that message id, and then the row has it |
| Records.RepliesTo | internal/db/conversations.go:87-100 | the rows whose in_reply_to equals the given id, and only those |
| Records.DirectReplies | internal/db/conversations.go:87-126 | `GetDirectReplies`: sorted by ascending date, a permutation of the matching rows, and empty for an empty message id |
| Records.RootRows | internal/db/conversations.go:26-27 | exactly the rows that satisfy the root predicate |
| Records.GetRootEmails | internal/db/conversations.go:19-56 | the page is sorted by descending date and holds only stored root emails; its length is the clamped `LIMIT`/`OFFSET` length; with no limit and no offset it is every root email; with no offset it holds the roots with the largest date keys (no root left out has a larger date key than one returned) |
| Records.RootMeansNoParent | internal/db/conversations.go:26-27 | an email is a root iff its in_reply_to is empty or names no stored non-empty message id |
| Records.ListEmails | internal/db/emails.go:184-219 | sorted by descending date, made of stored rows only, of the clamped `LIMIT`/`OFFSET` length; with no limit and no offset a permutation of the whole table; with no offset the rows with the largest date keys (none left out has a larger date key than one returned) |
| Records.PageOfDescending | internal/db/emails.go:191-192 | a page of a descending date-key ordering of some rows is drawn from those rows, has the clamped length, is all of them with no limit and no offset, and with no offset leaves out no row with a larger date key than one it returns |
| Records.LargestDatesFirst | internal/db/emails.go:191 | in a descending date-key ordering, every row after a prefix has a date key no larger than every row in it |
| Records.AttachmentsOf | internal/db/emails.go:245-270 | `GetAttachmentsByEmailID`: exactly the attachment rows of that email |
| Records.AttachmentById | internal/db/emails.go:273-286 | `GetAttachmentByID`: Some exactly when a row has that id, and then it is that row |
| Paths.Kept | internal/db/db.go:75 | the path elements `Clean` walks contain no empty and no `.` element and come from the input |
| Paths.TrimTrailingSlashes | internal/handlers/attachments.go:16-17 | the result is a prefix of the input, does not end in `/`, and only slashes were removed |
| Paths.LastElement | internal/handlers/attachments.go:16-17 | the result is a slash-free suffix of the input, preceded by a slash when shorter than the input |
| Paths.Base | internal/handlers/attachments.go:16-17 | `filepath.Base` is never empty, and contains a slash only when it is `/` |
| Paths.BaseOfName | internal/handlers/attachments.go:16-17 | a non-empty name without slashes is its own base |
| Paths.BaseDropsDirectory | internal/handlers/attachments.go:16-17 | the base of `dir/name` is `name`, whatever `dir` is |
| Paths.CleanSegmentsShape | internal/db/db.go:75 | a cleaned absolute path has only normal elements; a cleaned relative path is some `..` elements followed by normal ones |
| Paths.CleanRenderedRooted | internal/db/db.go:75 | `Clean` is the identity on an absolute path made of normal elements |
| Paths.NoDotDotMeansNormal | internal/db/db.go:75-80 | a relative path whose cleaned form has no `..` substring cleans to normal elements only |
| Paths.JoinUnderRoot | internal/db/db.go:89 | joining a clean root with a clean relative path of normal elements appends those elements |
| Paths.AbsIsCleanRooted | internal/db/db.go:83 | `filepath.Abs` yields the cleaned absolute form of the path, or of cwd joined with it |
| Paths.CleanJoinedNormal | internal/db/db.go:75 | `Clean` is the identity on a relative path made of normal elements |
| Paths.LeadingDotDotContained | internal/db/db.go:75-80 | a relative path that cleans to a leading `..` element is caught by the `..` substring check |
| Paths.LeadingParentContained | internal/db/db.go:75-80 | a relative path whose first kept element is `..` is caught by the `..` substring check |
| Resolve.ResolveEmailPath | internal/db/db.go:68-105 | every rejection is the single `ErrPathTraversal`; absolute inputs and cleaned paths containing `..` are rejected; a success equals the root or starts with root + `/` |
| Resolve.ResolveClosedForm | internal/db/db.go:68-105 | for every input: rejected if absolute or containing `..` after cleaning; else the root itself when the input cleans to `.`; else rejected when the root is `/`; else root + `/` + Clean(input) |
| Resolve.ResolveReachesVerdict | internal/db/db.go:83-104 | past the two early checks, the outcome is decided only by the prefix check on the joined absolute path |
| Resolve.NestedNameAccepted | internal/db/db.go:68-105 | `dir/name` with two normal elements and no `..` resolves to root/dir/name under any root other than `/` |
| Resolve.AcceptsInboxFile | internal/db/security_test.go:20-24 | `inbox/test.eml` resolves to `/home/user/emails/inbox/test.eml` |
| Resolve.AcceptsHiddenFile | internal/db/security_test.go:42-46 | `inbox/.hidden` resolves under the root |
| Resolve.RejectsParentClimb | internal/db/db.go:75-80 | any path starting with `../` is rejected |
| Resolve.RejectsInnerClimb | internal/db/db.go:75-80 | `x/../../rest` is rejected for every normal first element `x` |
| Resolve.RejectedClimbExamples | internal/db/security_test.go:25-34 | `../../../etc/passwd` and `inbox/../../etc/shadow` are rejected |
| Resolve.RejectsDotsInName | internal/db/db.go:78-80 | `a..b.eml` is rejected although it names no parent directory |
| Store.DB.constructor | internal/db/db.go:22-55 | a new store on a fresh database file is valid, with empty tables and an empty root |
| Store.DB.SetEmailsPath | internal/db/db.go:57-64 | `GetEmailsPath` then returns exactly the value set, and the tables are unchanged |
| Store.DB.InsertEmail | internal/db/emails.go:130-147 | fails exactly on a driver error or a duplicate file_path (UNIQUE), changing nothing; otherwise appends the row under the next id and returns that id |
| Store.DB.EmailExists | internal/db/emails.go:150-157 | true iff some stored row has that file_path, unless the query fails |
| Store.DB.InsertAttachment | internal/db/emails.go:232-242 | appends the row under the next attachment id, or fails and changes nothing |
| Store.MatchingPaths | internal/db/emails.go:401-431 | the `file_path IN (...)` query returns exactly the chunk's paths that are stored |
| Store.MarkAll | internal/db/emails.go:411-429 | marking keys adds exactly those keys with the given value and leaves the other entries alone |
| Store.DB.CheckExistenceChunk | internal/db/emails.go:401-432 | an empty chunk returns the map unchanged; otherwise the map gains the chunk's paths with value "stored", the other entries are kept, and a query failure is an error |
| Store.ChunkOf | internal/db/emails.go:384-395 | index x of the input is element x % 500 of chunk x / 500 (`filePaths[i:end]` with i = 500 c), and no other chunk covers it |
| Store.NextChunk | internal/db/emails.go:385-392 | one loop step: appending `filePaths[i:end]` to the chunks sent so far extends the covered prefix to `end`, and the next chunk starts 500 further on or the loop ends |
| Store.DB.EmailsExistBatch | internal/db/emails.go:375-398 | empty input gives an empty map; otherwise the keys are exactly the input paths, each mapped to whether a row has it; fails iff some chunk's query fails; the c-th `checkExistenceChunk` call receives chunk c (`ChunkAt`), on success the chunks sent concatenate back to the input, and on failure the failing chunk is the last one sent |
| Store.StageEmails | internal/db/emails.go:295-335 | inside the transaction, all statements succeed iff no file_path clashes with the table or the batch and no statement fails; the ids are consecutive and in input order; an error names a clashing path or a failed statement |
| Store.DB.InsertEmailsBatch | internal/db/emails.go:290-336 | empty input returns no ids and touches nothing; otherwise all-or-nothing: on success the batch is appended under consecutive ids, returned in input order; on any failure the table is unchanged |
| Store.StageAttachments | internal/db/emails.go:344-370 | inside the transaction: succeeds iff no statement fails, and appends the stamped rows |
| Store.DB.InsertAttachmentsBatch | internal/db/emails.go:339-371 | all-or-nothing append of the attachment rows |
| Store.StageDeletes | internal/db/emails.go:710-733 | inside the transaction: succeeds iff no statement fails, and removes the rows whose ids are listed |
| Store.DB.DeleteEmail | internal/db/emails.go:686-702 | deletes the row with that id; a missing id gives "email not found" and changes nothing |
| Store.DB.DeleteEmailsBatch | internal/db/emails.go:705-734 | all-or-nothing removal of every listed id; the store invariant still holds |
| Store.WithoutIdsMembers | internal/db/emails.go:705-734 | after deletion the table holds exactly the rows whose id is not listed |
| Store.WithoutIdsTwice | internal/db/emails.go:686-734 | deleting a set of ids and then one more id equals deleting them all at once |
| Store.WithoutIdsKeepsValid | internal/db/schema.go:9 | deletion preserves distinct file paths (UNIQUE) and ids below the counter |
| Store.AppendStampedValid | internal/db/schema.go:9 | appending an insertable batch under fresh ids keeps the file paths distinct and the ids below the counter |
| Store.RecipientColumn | internal/db/emails.go:471-475 | `SELECT recipients ... WHERE recipients != ''`: exactly the non-empty recipient fields |
| Store.DB.GetUniqueRecipients | internal/db/emails.go:470-530 | returns min(limit, distinct) distinct addresses that occur, ranked by count descending then address ascending, and every address left out ranks after every one returned |
| Store.PairAttachments | internal/db/emails.go:618-631 | the output has one entry per stored attachment, in order; entry i holds the i-th parsed attachment's data, or none when fewer were parsed |
| Store.FirstNamed | internal/db/emails.go:674-681 | the index of the first parsed attachment with that filename, or none if no attachment has it |
| Store.FindByFilename | internal/db/emails.go:674-681 | returns data exactly when some parsed attachment has the filename, and then the first such attachment's data |
| Store.DB.GetEmailWithFullContent | internal/db/emails.go:593-642 | a missing id gives no email and no error; a path rejected by `ResolveEmailPath` or an unparsable file is an error; otherwise the bodies, CC/BCC and raw headers come from the parsed file and the attachments are paired |
| Store.DB.GetAttachmentData | internal/db/emails.go:646-682 | missing attachment, missing email, rejected path, parse failure and unmatched filename are each a distinct error; otherwise the data of the first parsed attachment with the stored filename |
| Recipients.TokensClean | internal/db/emails.go:490-496 | every counted token is trimmed, non-empty and comma-free |
| Recipients.TokensOfJoin | internal/db/emails.go:490-496 | splitting a comma-joined list of clean addresses gives back that list |
| Recipients.TallyCounts | internal/db/emails.go:483-497 | the frequency map holds exactly the tokens that occur, each with its number of occurrences |
| Recipients.CountPieces | internal/db/emails.go:490-496 | the inner loop adds one to the count of each trimmed, non-empty piece |
| Recipients.CountRecipients | internal/db/emails.go:483-497 | the map's keys are exactly the addresses that occur, and each value is its number of occurrences over all rows |
| Recipients.Frequencies | internal/db/emails.go:508-511 | the slice lists each map entry exactly once |
| Recipients.PrecedesTransitive | internal/db/emails.go:514-521 | the sort order (count descending, then address ascending) is transitive |
| Recipients.PrecedesTotal | internal/db/emails.go:514-521 | any two entries with different addresses are ordered one way or the other |
| Recipients.PlaceBest | internal/db/emails.go:515-520 | one pass of the inner loop puts the best remaining entry at position i by swaps, keeping a permutation |
| Recipients.SortByFrequency | internal/db/emails.go:514-521 | the in-place exchange sort leaves the array ordered and a permutation of its old contents |
| Recipients.Take | internal/db/emails.go:524-527 | the first min(limit, n) addresses, in order |
| Recipients.TopRanked | internal/db/emails.go:513-528 | a prefix of a ranked listing is ranked and duplicate-free, and ranks before everything it leaves out |
| Recipients.UniqueRecipients | internal/db/emails.go:481-528 | as `Store.DB.GetUniqueRecipients`, over the recipient column |
| Conversations.GrowShaped | internal/db/conversations.go:160-193 | a built subtree keeps its node's email, root flag and depth; every child is one level deeper and not a root; no node is deeper than 50 and nodes at 50 have no children; every reply count equals the number of descendants |
| Conversations.GrowChildren | internal/db/conversations.go:175-191 | an expanded node's children are exactly its direct replies, in order |
| Conversations.GrowSkips | internal/db/conversations.go:151-166 | an empty message id, an already-visited id or a depth beyond 50 leaves the node and the visited set unchanged |
| Conversations.GrowOnce | internal/db/conversations.go:140-166 | the ids of expanded nodes are new to the visited set, pairwise distinct, and all added to it |
| Conversations.GrowAllOnce | internal/db/conversations.go:175-194 | the same over a list of sibling replies sharing one visited set |
| Conversations.WeightIsSize | internal/db/conversations.go:189-193 | the summed `1 + child.ReplyCount` equals the number of nodes below |
| Conversations.BuildTreeShaped | internal/db/conversations.go:130-147 | the built tree has the requested root, depth 0, root flag set, is shaped and counted, and expands each message id at most once |
| Conversations.GrowTree | internal/db/conversations.go:150-197 | the recursive method computes the tree-building function |
| Conversations.AddReplies | internal/db/conversations.go:175-194 | the reply loop appends each grown child and adds 1 + its reply count |
| Conversations.BuildConversationTree | internal/db/conversations.go:130-147 | the returned tree is rooted at the email, at depth 0, shaped and counted, with each message id expanded at most once |
| Conversations.Walk | internal/db/conversations.go:222-236 | the walk starts at the email and follows at most the hop bound of parent links |
| Conversations.FindConversationRoot | internal/db/conversations.go:222-236 | the loop returns the guarded walk's result: the last email reached, or a circular-reference error |
| Conversations.RootLoopCycle | internal/db/conversations.go:226-233 | reaching an already-seen message id means the walk repeats, so the result is the circular-reference error |
| Conversations.RootLoopEnd | internal/db/conversations.go:226-233 | stopping at an email without a resolvable parent, or at the hop bound, returns that email |
| Conversations.UnguardedWalkNeverStops | internal/db/conversations.go:222-236 | the loop as written never stops on a two-email cycle: no amount of fuel reaches a result |
| Conversations.GuardedWalkReportsCycle | internal/db/security_test.go:105-114 | on a two-email cycle the guarded walk returns the circular-reference error |
| Conversations.WalkBackDistinct | internal/db/security_test.go:147-156 | when every reply points to an earlier row, the walk visits distinct, stored emails |
| Conversations.ChainWalkSucceeds | internal/db/security_test.go:147-156 | on an acyclic table, a chain of any length ends in an email, not an error |
| Conversations.CollectOnce | internal/db/conversations.go:239-270 | an unvisited stored id gives a non-empty collection that starts with the email the lookup returns; the collection holds stored rows, each message id at most once, each newly visited; an empty or visited id gives nothing |
| Conversations.CollectAllOnce | internal/db/conversations.go:261-267 | the same over the list of replies sharing one visited set |
| Conversations.CollectCovers | internal/db/conversations.go:239-270 | with non-empty message ids unique, every stored row whose id the call newly marks visited is in the collection |
| Conversations.CollectAllCovers | internal/db/conversations.go:261-267 | the same over the list of replies |
| Conversations.CollectClosed | internal/db/conversations.go:257-267 | every direct reply (with a message id) of a collected email ends up visited |
| Conversations.CollectAllClosed | internal/db/conversations.go:261-267 | every reply in the list with a message id ends up visited, and so does every such reply of a collected email |
| Conversations.ThreadComplete | internal/db/conversations.go:238-270 | "recursively collects all emails": from an empty visited set, the collection holds every direct reply (with a message id) of each email in it, so every email reached from the first by replies |
| Conversations.WalkStored | internal/db/conversations.go:222-236 | the emails the root walk passes through are stored rows |
| Conversations.CollectThread | internal/db/conversations.go:239-270 | the recursive method computes the flat-collection function |
| Conversations.CollectReplies | internal/db/conversations.go:261-267 | the loop over the replies computes its function |
| Conversations.GetConversationEmails | internal/db/conversations.go:198-219 | a missing id is "email not found"; a cycle on the way up is an error; otherwise the thread collected from the root: stored rows with distinct message ids, starting with the root when it has a message id, and holding every reply (with a message id) of every email in it |
| Conversations.GetReferencesList | internal/db/conversations.go:331-344 | empty for an empty field; else the comma-split pieces, trimmed, without empty ones, in order |
| Search.TruncateText | internal/db/search.go:204-209 | text of length at most maxLen is returned unchanged; longer text becomes its first maxLen bytes and "..." |
| Search.FuzzyTerms | internal/db/search.go:35-42 | one fuzzy term per input term, in order |
| Search.BuildFuzzyTerms | internal/db/search.go:35-42 | each term gets its quotes doubled and a trailing `*`, one term per input term |
| Search.BuildFuzzyQuery | internal/db/search.go:100-106 | the loop builds the fuzzy query |
| Search.FuzzyTermIsWord | internal/db/search.go:35-42 | a fuzzy term is a non-empty word without whitespace |
| Search.FuzzyQueryDecodes | internal/db/search.go:35-42 | splitting the fuzzy query on whitespace gives one word per input term, and undoing the escaping and the `*` restores the term |
| Search.BuildConditions | internal/db/search.go:98-130 | the loop-built conditions and arguments are the selected filters and their arguments |
| Search.ConditionsInOrder | internal/db/search.go:98-130 | conditions appear only for active filters, in the order MATCH, sender, attachments, date from, date to |
| Search.WhereOnlyWithFilters | internal/db/search.go:155-157 | the WHERE clause is omitted iff no filter is active |
| Search.AndWordsShape | internal/db/search.go:155-157 | the conditions are joined by single `AND`s |
| Search.SenderArgument | internal/db/search.go:112-115 | the sender argument is "%" + sender + "%" |
| Search.OrderFollowsQuery | internal/db/search.go:159-166 | ORDER BY rank iff the query is non-empty, otherwise ORDER BY e.date DESC, always followed by LIMIT ? OFFSET ? |
| Search.PlaceholdersMatchArgs | internal/db/search.go:107-166 | the number of `?` in the built SQL equals the number of arguments |
| Search.BuildFilteredQuery | internal/db/search.go:93-166 | the built SQL has as many `?` as there are arguments, and the last two arguments are limit and offset |
| Search.RecentResults | internal/db/search.go:16-31 | one result per listed email, snippet = truncateText(body, 200) |
| Search.SearchEmails | internal/db/search.go:15-85 | an empty query returns the page of `ListEmails(limit, 0)` with truncated snippets; otherwise the engine's answer to the fuzzy query |
| Search.Snippet | internal/db/search.go:188-191 | an empty snippet falls back to the truncated body, and is empty only when the body is |
| Search.FillSnippets | internal/db/search.go:174-194 | each row keeps its email and gets the fallback snippet |
| Search.SearchWithFilters | internal/db/search.go:93-201 | one result per engine row, in order; each snippet is the engine's snippet, or the truncated body when the engine's is empty (`Snippet`), so it is empty only when the body is |
| Eml.SplitOnce | internal/parser/eml.go:167-169 | `SplitN(s, sep, 2)`: two pieces iff the separator occurs, split at its first occurrence, rejoining to the input |
| Eml.ExtractRawHeaders | internal/parser/eml.go:165-175 | the result is a prefix of the input ending at the first CRLF CRLF, else at the first LF LF, else the whole input |
| Eml.ParseMessageIdList | internal/parser/eml.go:191-203 | the whitespace-separated fields in order, none empty and none containing whitespace |
| Eml.MessageIdListRoundTrip | internal/parser/eml.go:191-203 | space-joining a list of ids and parsing it gives the list back |
| Eml.FirstPlainBodyIsFirst | internal/parser/eml.go:132-136 | the text body is that of the first text/plain part with a non-empty body, and empty iff there is none |
| Eml.FirstPlainBodyAppend | internal/parser/eml.go:132-136 | a later text/plain part changes the text body only while it is still empty |
| Eml.LastHtmlBodyIsLast | internal/parser/eml.go:137-140 | the HTML body is that of the last text/html part, and empty when there is none |
| Eml.AttachmentsInAppend | internal/parser/eml.go:142-157 | attachments are collected in part order |
| Eml.AttachmentsInExactly | internal/parser/eml.go:142-157 | the collected attachments are exactly the attachment parts, each with size = length of its data |
| Eml.ReadParts | internal/parser/eml.go:114-159 | the first unreadable part is an error; otherwise the loop yields the text body, HTML body and attachments above |
| Handlers.Scrub | internal/handlers/attachments.go:19-25 | the filter output has no control byte, DEL, `"` or `'`, keeps only input characters, and leaves a clean string unchanged |
| Handlers.Cut | internal/handlers/attachments.go:27-30 | a prefix of at most 255 bytes, the whole string when it fits |
| Handlers.SanitizeFilename | internal/handlers/attachments.go:15-37 | never empty, at most 255 bytes, no forbidden byte, and either the fallback or a prefix of the filtered base name |
| Handlers.SanitizeKeepsName | internal/handlers/attachments.go:15-37 | a short clean name without slashes is returned unchanged |
| Handlers.SanitizeDropsDirectory | internal/handlers/attachments.go:16-17 | only the last path element matters |
| Handlers.SanitizeKeepsBaseArtifacts | internal/handlers/attachments.go:16-17 | as written, "" sanitizes to "." and a string of slashes to "/" |
| Handlers.SanitizeFilenameSafe | internal/handlers/attachments.go:15-37 | the corrected version: never empty, at most 255 bytes, no forbidden byte, no slash, never ".", and "" gives download.bin |
| Handlers.SafeAgreesElsewhere | internal/handlers/attachments.go:15-37 | the corrected version agrees with the original wherever the original returns neither "." nor "/" |
| Handlers.FormatSender | internal/handlers/email.go:160-165 | name + " <" + email + ">" when the name is non-empty, else the email |
| Handlers.ExpBound | internal/handlers/email.go:172-177 | while 1024^(exp+1) fits in int64, exp is at most 5 |
| Handlers.ScaleStep | internal/handlers/email.go:172-176 | one loop step keeps div ≤ bytes < (n + 1)·div with n = bytes / div |
| Handlers.ScaleOf | internal/handlers/email.go:172-176 | the loop ends with div = 1024^(exp+1), div ≤ bytes < 1024·div, exp ≤ 5 and no int64 overflow |
| Handlers.FormatSize | internal/handlers/email.go:167-178 | below 1024 (negatives included) the decimal count + " B"; otherwise the unit letter "KMGTPE"[exp], in range, with div ≤ bytes < 1024·div |
| Handlers.ScaleUnique | internal/handlers/email.go:172-176 | at most one exponent satisfies the loop's bounds |
| Handlers.Truncate | internal/handlers/index.go:94-99 | unchanged when it fits, otherwise the first maxLen bytes + "..." (length maxLen + 3); always begins with the first min(len, maxLen) bytes |
| Handlers.TruncateAgrees | internal/handlers/index.go:94-99 | `truncate` computes the same function as `truncateText` |
| Indexer.KeptRows | internal/indexer/indexer.go:205-219 | the attachment rows that were inserted all belong to the email, at most one per parsed attachment, and one per parsed attachment when none fails |
| Indexer.Tally | internal/indexer/indexer.go:66-69 | TotalFound is the scan count, and NewIndexed + Skipped + Failed equals the number of results, with one failed-file entry per failure |
| Indexer.TallyFailedFiles | internal/indexer/indexer.go:111-114 | FailedFiles lists exactly the paths with Failed status |
| Indexer.TallyAppend | internal/indexer/indexer.go:99-115 | tallying two runs of results one after the other adds their counts |
| Indexer.TallyRearranged | internal/indexer/indexer.go:98-115 | tallying the same results in any order gives the same counts |
| Indexer.OutcomesRearranged | internal/indexer/indexer.go:98-115 | the multiset of per-file outcomes does not depend on the processing order |
| Indexer.TallyAnyOrder | internal/indexer/indexer.go:98-115 | final counts are the same for every processing order, hence for every worker count |
| Indexer.RerunOutcome | internal/indexer/indexer.go:154-162 | a file indexed or skipped once is skipped the next time; a failed one fails again |
| Indexer.SecondRun | internal/indexer/indexer.go:152-222 | a second run over unchanged files indexes nothing, skips everything previously indexed or skipped, and fails the same files |
| Indexer.CollectResults | internal/indexer/indexer.go:371-387 | the collection loop computes the tally; with a callback it is called once per result with current = 1, 2, … and the total |
| Indexer.Indexer.constructor | internal/indexer/indexer.go:26-33 | the default concurrency is 2 × NumCPU |
| Indexer.Indexer.WithConcurrency | internal/indexer/indexer.go:36-42 | values below 1 become 1; other values are stored unchanged |
| Indexer.Indexer.InsertAttachments | internal/indexer/indexer.go:205-219 | each attachment that inserts is appended under the next id; failures are skipped and the email table is untouched |
| Indexer.Indexer.ProcessFile | internal/indexer/indexer.go:152-222 | the status is the per-file decision: a failed existence check is Failed, a stored path is Skipped, a parse, stat or insert failure is Failed, else Indexed; only Indexed adds a row, with AttachmentCount = parsed count and HasAttachments iff it is positive |
| Indexer.Indexer.ProcessAll | internal/indexer/indexer.go:98-115 | processing distinct files one by one yields each file's decision against the initial table, and stores exactly the newly indexed paths |
| Indexer.Indexer.IndexAllSequential | internal/indexer/indexer.go:225-332 | a scan failure is an error; otherwise the result is the tally of the per-file decisions, and the stored paths are the old ones plus those indexed |
| Indexer.Indexer.IndexAllConcurrent | internal/indexer/indexer.go:59-123 | whatever order the workers finish in, the counts and stored paths equal those of the scan-order run |
| Indexer.Indexer.IndexWithProgress | internal/indexer/indexer.go:335-390 | as `IndexAllConcurrent`, and the callback fires once per file with current = 1, 2, …, TotalFound |

## Left out

- SQL text is modelled as a list of words joined by single spaces. The Go code's newlines and indentation inside the query strings are not modelled.
- The SQLite engine is a parameter:
  - FTS5 `MATCH`, `rank` and `snippet()` are a function from the query and arguments to rows;
  - a failing write statement, chunk query or commit is a parameter (a set of failing statement indexes, or a flag).
- Read queries are modelled as never failing: `GetEmailByID` (conversations.go:203-206), `GetEmailsByMessageID` (conversations.go:79-81), `GetDirectReplies` (conversations.go:169-172), `ListEmails`, `GetRootEmails`, `GetAttachmentsByEmailID`, the query, scan and `rows.Err` errors of `GetUniqueRecipients` (emails.go:476-478, 485-487, 499-501) and both search queries (search.go:58-61, 168-171). `filepath.Abs` (db.go:84-86, 93-96) never fails either. A lookup that finds no row is None; the callers treat an error and a nil result alike.
- Store.DB.constructor: models `Open` on a fresh database file, so the tables start empty. A reopened existing file is any state satisfying `Valid()`, which every other method accepts. The errors of `MkdirAll`, `sql.Open` and `initSchema` (db.go:25-27, 33-35, 47-50) are not modelled.
- Search.SearchWithFilters: the search columns in search.go are mid-refactor; the model reads the body as `body_text_preview`, the only body column the `Email` row has.
- Indexer.Indexer.ProcessFile: the record in indexer.go:179-195 sets `CC`, `BCC`, `BodyText`, `BodyHTML` and `RawHeaders`, which `Email` (emails.go:75-92) does not have. The stored row keeps only the fields `Email` declares, and the date becomes NULL for the zero time.
- The call to `ResolveEmailPath` at emails.go:604 and :666 treats it as single-valued. The model propagates its error.
- Handlers.FormatSize: the `%.1f` float formatting of the scaled value is not modelled. The result records the unit letter, the divisor and the exponent.
- Strings are bytes. Go's `strings.Map` replacement of invalid UTF-8 in `sanitizeFilename` and Unicode whitespace in `TrimSpace`/`Fields` are not modelled.
- Conversation nodes are values; the Go code builds them through pointers and appends to the parent's `Children`. The direct-reply and parent lookups are passed to the tree and walk lemmas as functions over the table.
- Conversations.ThreadComplete: replies without a Message-ID are not promised. `getConversationEmailsRecursive("")` returns nothing (conversations.go:240-241), so the flat list drops such a reply, while `BuildConversationTree` keeps it as a leaf.
- Conversations.CollectCovers, Conversations.CollectAllCovers, Conversations.ThreadComplete and the completeness clauses of Conversations.GetConversationEmails assume that no two rows share a non-empty message id. The schema does not enforce this: the `message_id` column is not UNIQUE (schema.go:10), and its index is a plain one (schema.go:79). With duplicates, the lookup returns the first such row and later rows with that id are not collected.
- Records.SortByDate and the pages built on it: a date is an abstract ordered key (NULL first). SQLite has no date type: the driver writes the `date DATETIME` column as text, each value with its own UTC offset (DSN `?_time_format=sqlite`, db.go:30). `ORDER BY date` (emails.go:191, conversations.go:28, conversations.go:99) therefore compares that text, so rows with different offsets need not come out in time order; "largest date key" is not "newest". SQL leaves the order of equal dates unspecified; the model keeps them in table order.
- `CountReplies` (a recursive CTE) and `GetRootEmailsWithReplyCounts` are SQLite query execution and are not modelled.
- The foreign key `ON DELETE CASCADE` is not enforced, because foreign keys are never switched on. Deleting an email leaves its attachment rows.
- Conversations.FindConversationRoot: the walk in conversations.go:222-236 has no cycle guard. The model uses the guarded walk, with a per-call visited set and a bound of 100 hops, that the security tests require (see Findings).
- The goroutine pool, channels and WaitGroup of `indexAllConcurrent` and `IndexWithProgress` are modelled as an arbitrary arrival order of the scanned files. Files are processed one at a time in that order. Interleaving of store calls between concurrently processed files is not modelled.
- Logging, `verbose` output and timing are not modelled.
- The directory scan (internal/scanner/scanner.go) is a parameter: an optional list of distinct paths, with None for a scan error. `os.Stat` and `ParseEMLFile` are per-file parameters. MIME decoding (go-message, RFC 2047 words, charsets) is replaced by an abstract list of parts.
- The `time.Now()` fallback for a missing Date header is not modelled; the parsed date is an input.
- Indexer.Indexer.ProcessAll: the number of rows in the table after the run is not stated. Only the set of stored paths is.
- Indexer.Indexer.IndexAllSequential: calls `ProcessFile` for each file where indexer.go:241-324 repeats the same steps inline. The decisions are the same.
- Store.DB.GetUniqueRecipients, Search.TruncateText and Handlers.Truncate require a non-negative limit or length, where Go would panic on a negative one.
- `GetUniqueSenders`, `GetStats`, `CountEmails`, time-string parsing in `NullTime`, the HTTP handlers, templates and `main.go` are not part of this model.

## Findings

| source | as written | input that shows it | evidently intended | confidence | as-written member | corrected member |
|---|---|---|---|---|---|---|
| internal/db/conversations.go:222-236 (and its copy in internal/handlers/conversation.go:89-97) | `findConversationRoot` follows `InReplyTo` with no visited set and no hop limit | two emails whose in_reply_to name each other: the loop never ends | report a circular reference and stop, as internal/db/security_test.go:105-114 expects | high (not executed) | Conversations.UnguardedWalkNeverStops | Conversations.GuardedWalkReportsCycle |
| internal/handlers/attachments.go:16-17, 32-35 | the fallback to download.bin applies only to an empty result, but `filepath.Base` returns "." for "" and "/" for a string of slashes | filename "" gives "."; filename "/" gives "/" | a name that is not a path artefact, e.g. download.bin | medium (not executed) | Handlers.SanitizeKeepsBaseArtifacts | Handlers.SanitizeFilenameSafe |
