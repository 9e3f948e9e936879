# Verified model of the message parser and the read-state engine

A Dafny model of the parts of the chat platform whose correctness rests on algorithms: the
mrkdwn parser, the read-state and unread engine with its total cache, channel permissions,
upload limits and upload sessions, the attachment sweep, friendships, channel reordering and
the bigint walk. `dafny verify dfyconfig.toml` checks all of it.

Where the source works step by step the model does too: scanner, counters, services and loops
are methods and classes, each proved to do what a function on values says, and the properties
are proved of those functions.

| files | what they model |
|---|---|
| `Wrappers`, `Sets` | options, results, sizes of sets |
| `Chars`, `Utf8` | JavaScript strings as UTF-16 code units; the byte count |
| `RichText`, `Tokens`, `Lines` | the tree, the inline tokens and the line forms, each pattern as a concrete recogniser proved equal to the language it stands for |
| `Inline`, `Budget`, `Emit`, `Document` | the parse as lexing, counted steps and emission |
| `Patterns`, `Meaning`, `BlockMeaning`, `Guard`, `TreePaths` | what lines, tokens, runs, blocks, the depth guard and the measures mean, said without the parser |
| `Projection`, `Conformance` | what holds of every parse |
| `Parser`, `BlockParser` | the scanner with its shared counter and clock |
| `Permissions` | masks, the five-stage fold, the visibility conditions |
| `ReadState`, `MarkAll`, `Totals`, `UnreadWorld`, `NewPosts`, `OtherChanges` | cursors, unread sets, summaries, snapshots, the cache, runs over them, and the changes that drop nothing |
| `UnreadService`, `UnreadPages` | the service, the paged listing |
| `CacheFence`, `ClaimRace` | the cache with its lock and the claim of a snapshot, under interleaving |
| `RateLimit`, `RateRace` | upload rate limits, by one caller at a time and under interleaving |
| `Upload`, `UploadRace`, `UploadCap`, `UploadAnswers`, `UploadLinks`, `UploadObjects` | upload sessions as a whole and one store access at a time, what a call answers, the limit of ten, what attachments are linked to, the objects behind them |
| `Gc`, `GcRace` | the sweep, and what happens between its selection and its deletions |
| `Friends`, `FriendAnswers`, `FriendCap`, `FriendRace` | friendships, what every operation answers, their cap, operations under interleaving |
| `BigIntWalk`, `Reorder` | the payload walks, reordering |

How the surroundings appear: the clock of a parse is the number of readings that are still in
time, which covers every clock since the first late reading ends the parse; a SQL statement or
a script run inside the key-value store is one step on maps; drawn uuids are parameters; times
are integers; a user's grants on a channel are the unions of the overrides that apply to them,
custom roles included; what the object store or a pattern library answers is a parameter.

Where the code and its own documentation part, the model follows the code: the parser
documents a depth check on nesting that can never fail (`Document.RunNeverTooDeep`); the query
for visibility shows every public channel, whatever is denied (`Permissions.QueryAgreesIff`);
a new message does not drop cached totals (`NewPosts.PostStaleIff`); reordering does not keep
positions distinct from those of channels it leaves out (`Reorder.CollidesIff`).

These rules hold of calls that do not overlap and fail of some that do; for each there is the
exact condition and a run that breaks it: ten attachments a message (`UploadCap`), the upload
windows (`RateRace`), one undo a snapshot (`ClaimRace`), one row a pair and a block that only
the two users' own blocking and unblocking ends (`FriendRace`), nothing swept that is linked or
completed (`GcRace`), the checked object (`UploadObjects`), a fresh cache (`CacheFence`). The
friend cap fails without any overlap (`FriendCap`). What else is stated of serial runs only is
said so below.

## Model

| member | source | states |
|---|---|---|
| BlockParser.ParseMrkdwn | packages/shared-types/src/mrkdwn-parser.ts:172-182 | The whole parse, scanner and counters included, returns for every message, resolver and clock exactly the tree, projection, node count or error that `Document.Parse` gives; the rows below are about that function |
| BlockMeaning.TreeShows | packages/shared-types/src/mrkdwn-parser.ts:199-278 | The tree has one block for every segment of the lines that is not blank, in order: a fence shows its body and language, a heading its level and text, a quote, a list and a paragraph what the tokens of their lines mean |
| Meaning.EmitMeans | packages/shared-types/src/mrkdwn-parser.ts:361-494 | The nodes of a run show exactly what its tokens mean: every literal unit once, in order, under the marks of the markers around it, every mention with its kind, identifier and label, every link with its url and caption |
| Meaning.TokenIsAtom | packages/shared-types/src/mrkdwn-parser.ts:387-466 | The token at a position is a mention, a safe or unsafe link, or a bare url if and only if one stands there, and a url is the longest there |
| Meaning.TokenIsPiece | packages/shared-types/src/mrkdwn-parser.ts:468-487 | Where there is none of these, and the longest marker there occurs again before a newline, the token is the piece up to that nearest occurrence |
| Meaning.TokenIsPlain | packages/shared-types/src/mrkdwn-parser.ts:489-493 | The token is one unit of text if and only if none of all these stands there |
| Meaning.PlainShows | packages/shared-types/src/mrkdwn-parser.ts:513-542 | The projection of nodes is the text they show: letters without marks, nothing of a mention, the caption of a link or else its url |
| BlockMeaning.TreeSays | packages/shared-types/src/mrkdwn-parser.ts:513-542 | The text of a tree is what its segments say, in order: the lines of a fence, and of a heading, quote, list or paragraph what the tokens of its lines say, items set apart by a space |
| Conformance.ParseSucceedsIff | packages/shared-types/src/mrkdwn-parser.ts:172-182 | A message parses if and only if its tree, with list items and skipped blank runs counted in, is within 500 nodes, no text trips the depth guard, and the clock allows every reading; the result is then that tree |
| Document.ParseMeasures | packages/shared-types/src/mrkdwn-parser.ts:154-166 | On success `measureTree(ast).count` plus the list items and skipped runs is `nodeCount`, which is within the node limit, and the depth is at most 3 |
| Document.RunNeverTooDeep | packages/shared-types/src/mrkdwn-parser.ts:361-367 | For every text, no nested run is entered with more active marks than allowed, so the depth error inside `parseInlineRun` cannot occur |
| Emit.LexChain | packages/shared-types/src/mrkdwn-parser.ts:468-485 | Nearest-close search leaves every inner slice free of its own marker, so no marker repeats along a nesting chain |
| Emit.ChainDepth | packages/shared-types/src/mrkdwn-parser.ts:361-367 | A chain of distinct markers is never deeper than the five styling markers |
| Emit.ChainMarks | packages/shared-types/src/mrkdwn-parser.ts:375-380 | A text node carries at most six marks |
| Conformance.DepthErrorIsTheGuards | packages/shared-types/src/mrkdwn-parser.ts:324-355 | When every text passes the guard, no parse of the message ends in a depth error |
| Projection.NothingInvented | packages/shared-types/src/mrkdwn-parser.ts:172-182 | The visible characters of `plain` are, in order, a subsequence of `raw`, `plain` is no longer than `raw`, and raw text within 4000 units passes the content limit |
| Projection.NamesOnlyDecorate | packages/shared-types/src/mrkdwn-parser.ts:88-97 | Whether a message parses, its projection and its node count do not depend on the display names resolved for it |
| Projection.PlainCollapses | packages/shared-types/src/mrkdwn-parser.ts:172-182 | The projection has the visible units of the tree's text, one space between two of them exactly where any blanks stood, and no blank at an end |
| Projection.PlainMessage | packages/shared-types/src/mrkdwn-parser.ts:489-494 | A message without markup becomes one paragraph holding one text equal to the message, and its projection has all visible units of it, one space between two of them exactly where the message has blanks, and no blank at an end |
| Projection.QuietIsInert | packages/shared-types/src/mrkdwn-parser.ts:380-493 | A text without a unit that a token can start with, and without a colon, has no tokens |
| Conformance.TreeFine | packages/shared-types/src/mrkdwn-parser.ts:387-494 | Every link of a parsed tree has a safe url, every mention id has the uuid or cuid2 form, texts carry at most six marks, headings are of level 1 to 3 |
| Conformance.SchemaAcceptsIff | packages/shared-types/src/mrkdwn-ast.ts:262-283 | The schema accepts a parsed tree if and only if every fence names a language of at most 32 units and every resolved label has at most 100 |
| Conformance.LongLanguageRejected | packages/shared-types/src/mrkdwn-parser.ts:188-188 | A fence with any longer language parses and is then rejected by the schema |
| Conformance.LongLabelRejected | packages/shared-types/src/mrkdwn-parser.ts:88-97 | A mention on its own, of any kind, whose label resolves to more than 100 units parses and is then rejected by the schema |
| Conformance.LongNameMentioned | packages/shared-types/src/mrkdwn-parser.ts:88-97 | Such a message: a user mention of a name of 101 units |
| Emit.ChecksPayForNodes | packages/shared-types/src/mrkdwn-parser.ts:361-494 | Every node that a run emits has been counted, and nothing else in the run is counted |
| Meaning.ChecksDepths | packages/shared-types/src/mrkdwn-parser.ts:361-367 | Every styled piece has its own depth checked, in order, and nothing else has |
| Meaning.ChecksPeek | packages/shared-types/src/mrkdwn-parser.ts:380-384 | The scanning loop looks at the clock at every turn that begins at a multiple of 1024, and at no other |
| Emit.EmitDraws | packages/shared-types/src/mrkdwn-parser.ts:513-542 | The plain text of the nodes of a run is read off the source of its tokens, skipping |
| Inline.LexSource | packages/shared-types/src/mrkdwn-parser.ts:380-493 | The tokens of a text are a partition of it: put back together they are the text from that position on |
| Inline.TokenAt | packages/shared-types/src/mrkdwn-parser.ts:387-487 | The token at a position is never empty, lies within the text, and is a prefix of what is left |
| Emit.LexValid | packages/shared-types/src/mrkdwn-parser.ts:387-466 | Every token of every text is one that the patterns allow, nested ones included |
| Emit.UrlSafe | packages/shared-types/src/mrkdwn-parser.ts:459-466 | A bare url always passes `isSafeLinkUrl`, which the scanner does not ask |
| Tokens.MatchMarker | packages/shared-types/src/mrkdwn-parser.ts:300-305 | The marker found starts at the position, and none that comes before it in the list does |
| Tokens.FindClose | packages/shared-types/src/mrkdwn-parser.ts:501-509 | The index of the nearest close before a newline, or -1 |
| Tokens.CloseNearest | packages/shared-types/src/mrkdwn-parser.ts:501-509 | Between the start and the close found there is no nearer close and no newline |
| Tokens.CloseMissing | packages/shared-types/src/mrkdwn-parser.ts:501-509 | When no close is found, any later occurrence of the marker lies behind a newline |
| Tokens.MatchRef | packages/shared-types/src/mrkdwn.ts:39-77 | A mention matches if and only if the text starts with its sigil, an identifier of the uuid or cuid2 form, and the closing sigil; the identifier is unique |
| Tokens.MatchLink | packages/shared-types/src/mrkdwn-parser.ts:308-308 | A markdown link matches if and only if the text starts with one; caption and url are the only ones that fit |
| Tokens.UrlLongest | packages/shared-types/src/mrkdwn-parser.ts:307-307 | The url found is the longest prefix of the text that is a url |
| Patterns.UrlIsPieces | packages/shared-types/src/mrkdwn-parser.ts:307-307 | A text is a url if and only if it is http or https, a colon and two slashes, and at least two units of which the last does not close a sentence |
| Patterns.MarkerTable | packages/shared-types/src/mrkdwn-parser.ts:291-298 | The markers in the order in which they are tried, with the mark each stands for |
| Chars.Split | packages/shared-types/src/mrkdwn-parser.ts:200-200 | The lines are free of newlines and join back to the text |
| Chars.SplitUnique | packages/shared-types/src/mrkdwn-parser.ts:200-200 | Only one list of newline-free lines joins to a text, so that contract determines the split |
| Chars.CollapseDraws | packages/shared-types/src/mrkdwn-parser.ts:544-546 | Collapsing blanks only removes: the result can be read off the text, skipping |
| Chars.CollapseKeeps | packages/shared-types/src/mrkdwn-parser.ts:544-546 | Collapsing keeps every visible unit, leaves one space between two of them exactly where any blanks stood, and none at an end |
| Patterns.FenceIff | packages/shared-types/src/mrkdwn-parser.ts:188-188 | A line opens a fence with this language if and only if it is three backticks, the language and blanks |
| Patterns.FenceCloseIff | packages/shared-types/src/mrkdwn-parser.ts:209-220 | A line closes a fence if and only if it is one without a language |
| Patterns.HeadingIff | packages/shared-types/src/mrkdwn-parser.ts:197-197 | A line is a heading of this level and text if and only if it is as many hashes, blanks and the text, the text being the least that the pattern leaves |
| Patterns.QuoteIff | packages/shared-types/src/mrkdwn-parser.ts:191-191 | A line is quoted with this text if and only if it is an angle bracket, a blank or none, and the text, the least that the pattern leaves |
| Patterns.ItemIff | packages/shared-types/src/mrkdwn-parser.ts:189-190 | A line is an item with this text if and only if it is a dash, a star, or one to nine digits and a dot, then blanks and the text, the least that the pattern leaves |
| Lines.SegmentsPartition | packages/shared-types/src/mrkdwn-parser.ts:199-278 | Block segmentation is a partition of the lines, in order, into segments that fit their kind: a fence and its body verbatim, one heading, a run of quotes, of items, or of prose |
| Lines.SegmentsMaximal | packages/shared-types/src/mrkdwn-parser.ts:231-271 | Two neighbouring segments are never parts of one block |
| Lines.SegmentSpec | packages/shared-types/src/mrkdwn-parser.ts:203-276 | The segment at a line is not empty, fits its kind and ends where the scanner goes on |
| RichText.MeasureTree | packages/shared-types/src/mrkdwn-ast.ts:238-260 | The walk over `nodes` and `items` computes the node count and the depth of the tree, as they are defined by recursion |
| TreePaths.CountIsPaths | packages/shared-types/src/mrkdwn-ast.ts:238-260 | The count is the number of ways down into the tree, every node being at the end of one |
| TreePaths.DepthIsLongest | packages/shared-types/src/mrkdwn-ast.ts:238-260 | The depth is the number of nodes on the longest way down |
| TreePaths.SchemaRootIff | packages/shared-types/src/mrkdwn-ast.ts:262-283 | The schema takes a root if and only if it takes its nodes, there are at most 500 ways down, and none has more than ten nodes |
| TreePaths.SchemaNodeIff | packages/shared-types/src/mrkdwn-ast.ts:60-236 | The schema takes a node if and only if it allows every node below it on its own: inline nodes in runs, levels, indents, lengths, identifiers, safe links, and no root |
| TreePaths.SafeLinkIff | packages/shared-types/src/mrkdwn-ast.ts:106-116 | A link is safe if and only if it is not blank and any scheme it names is http or https |
| Budget.ConsumeOk | packages/shared-types/src/mrkdwn-parser.ts:154-166 | A series of counted steps passes if and only if every budget covers the whole of it, and the counters then have moved by exactly the steps taken |
| Parser.ScanState.BumpNode | packages/shared-types/src/mrkdwn-parser.ts:154-166 | Counts a node in the shared state, then reads the clock: the state and error of one `Bump` event |
| Parser.ParseInlineRun | packages/shared-types/src/mrkdwn-parser.ts:361-494 | The scanner loop, recursion and shared counter included, returns the nodes of the lexed text, or the error that performing its checks meets first, and leaves the counters where those checks leave them |
| Parser.Turn | packages/shared-types/src/mrkdwn-parser.ts:380-491 | One turn of the scanner keeps: nodes and pending text so far, and the checks made so far, together with what is left of the text, give the result of the run |
| BlockParser.EnforceInlineMarkerDepth | packages/shared-types/src/mrkdwn-parser.ts:324-355 | The guard fails exactly when both the leading and the trailing run of marker tokens exceed ten |
| Guard.GuardMeasures | packages/shared-types/src/mrkdwn-parser.ts:324-348 | The depth is the smaller of two numbers: of the markers that open the text, each the longest there, and of those that end it behind them, read backward |
| BlockParser.ParseBlocks | packages/shared-types/src/mrkdwn-parser.ts:199-278 | The block loop terminates and returns the blocks of the segments, or the first error of their checks |
| BlockParser.ReadFence | packages/shared-types/src/mrkdwn-parser.ts:209-220 | The body of a fence is exactly the lines up to its close or the end, and the close is consumed |
| Emit.ResolveName | packages/shared-types/src/mrkdwn-parser.ts:88-97 | A label is the name without the blanks at its ends: it is present if and only if there is a name that is not all blanks, and never starts or ends with a blank |
| Utf8.DecodeEncode | packages/shared-types/src/mrkdwn-parser.ts:127-131 | Encoding as section 3 of RFC 3629 says and reading back returns every well-formed string |
| Utf8.ByteLength | packages/shared-types/src/mrkdwn-parser.ts:132-143 | The count without an encoder is the size of that encoding for every well-formed string, which is all that `JSON.stringify` returns |
| Utf8.CountExact | packages/shared-types/src/mrkdwn-parser.ts:132-143 | On any string, lone surrogates included, the count without an encoder falls short of the encoded size by what follows the high surrogates that no low one follows, less a byte each; it exceeds it by one at most, and only when the string ends in a high surrogate |
| Utf8.LoneHighCounts | packages/shared-types/src/mrkdwn-parser.ts:132-143 | A lone high surrogate before one other unit: right if and only if that is a single byte; on its own: one too many |
| Permissions.EffectiveHasIff | apps/api/src/auth/permissions.ts:158-216 | A member has a permission in a channel if and only if no override for the user denies it and either one for the user allows it, or none for the role denies it and one for the role or the base has it; the base counts for the owner, in a public channel, and where some override that applies allows READ |
| Permissions.RolesRanked | apps/api/src/auth/permissions.ts:88-113 | Roles differ in name, and a higher role's baseline has all that a lower one's has |
| Permissions.EffectiveDependsOnSet | apps/api/src/auth/permissions.ts:158-197 | The mask depends only on the set of overrides that apply and grant something: order, repetition, zero-mask rows and other people's rows do not matter |
| Permissions.JoinMarkerIsNeutral | apps/api/src/channels/channels.service.ts:961-1008 | The row that joining a public channel adds changes nobody's mask |
| Permissions.EffectiveIsResolve | packages/shared-types/src/permissions.ts:111-121 | The channel mask is, bit by bit, the catalogue resolver on the gated base |
| Permissions.ResolveFlag | packages/shared-types/src/permissions.ts:111-121 | A flag is set if and only if it is not denied to the user and is either allowed to the user, or not denied to the role and allowed to the role or in the base |
| Permissions.FoldFlag | apps/api/src/auth/permissions.ts:203-216 | The same flag by flag of the channel fold over the gated base and the unions of the overrides |
| Permissions.PrivateGate | apps/api/src/auth/permissions.ts:186-197 | Without a READ grant a private channel gives others than the owner only bits allowed outright, and never READ |
| Permissions.DocumentedIsReadBit | apps/api/src/channels/unread.service.ts:147-154 | For everyone but the owner the documented visibility formula is the READ bit of `effective` |
| Permissions.QueryAgreesIff | apps/api/src/common/acl/read-visibility.sql.ts:29-56 | The condition the queries run agrees with the READ bit of `effective` if and only if the channel is public and READ is not taken away, or it is private and not an owner's without any READ override |
| Permissions.QueryDiffersTwice | apps/api/src/common/acl/read-visibility.sql.ts:29-56 | A public channel denied to a role is shown to it, and an owner's private channel without overrides is hidden |
| Permissions.ListAgreesIff | apps/api/src/channels/channels.service.ts:157-193 | The channel list agrees with the READ bit if and only if READ is not denied to one who is listed and the override that lists a private channel allows READ |
| Permissions.ListDiffers | apps/api/src/channels/channels.service.ts:157-193 | An override that only lifts slow mode lists a private channel that cannot be read |
| Permissions.StorageRoundTrip | packages/shared-types/src/permissions.ts:168-174 | A mask survives storage if and only if it fits 64 unsigned bits |
| ReadState.AcksConverge | apps/api/src/channels/unread.service.ts:671-741 | After any acks in any order, repeated or invalid, the cursor is the lexicographic maximum of the first cursor and the acked messages, and the unread count has not grown |
| ReadState.AckOrderIrrelevant | apps/api/src/channels/unread.service.ts:690-710 | Two series of acks of the same messages end at the same cursor |
| ReadState.AckedUnread | apps/api/src/channels/unread.service.ts:567-588 | An ack leaves exactly the unread messages after it |
| ReadState.MarkUnreadExact | apps/api/src/channels/unread.service.ts:758-795 | After marking a message unread, exactly the live root or broadcast messages from it on are unread, whatever the cursor was |
| ReadState.MarkedCursor | apps/api/src/channels/unread.service.ts:775-795 | Marking a message unread puts the cursor on the latest live message before it, replies included, or on nothing |
| ReadState.AckAfterMarkUnread | apps/api/src/channels/unread.service.ts:671-710 | A later ack of any live message from there on moves forward to it |
| MarkAll.MarkAllReads | apps/api/src/channels/unread.service.ts:993-1131 | Every visible channel ends with nothing unread, no cursor moves backward, nothing invisible and nobody else's row is touched, and the snapshot is about exactly the channels that moved |
| MarkAll.MarkAllMoves | apps/api/src/channels/unread.service.ts:993-1131 | A visible channel moves if and only if something in it is unread, and then to the latest of its live roots and broadcasts; the snapshot keeps where it was |
| MarkAll.UndoRestores | apps/api/src/channels/unread.service.ts:1261-1292 | An undo with no step in between restores every cursor of every channel; a row that was missing comes back holding null |
| MarkAll.RecountAgreesIff | apps/api/src/channels/unread.service.ts:1326-1337 | The count an undo reports is the unread count if and only if no live reply that is not a broadcast lies after the cursor |
| MarkAll.RecountDiffers | apps/api/src/channels/unread.service.ts:1326-1337 | One live reply, never read: the undo counts it, the unread count does not |
| UnreadWorld.TotalsAlwaysFresh | apps/api/src/channels/unread.service.ts:1442-1513 | After any serial run of acks, mark-unreads, mark-alls, undos under any store faults, cached reads, expiries and other changes that drop what they change, a total read through the cache is that of a fresh summary |
| UnreadWorld.StepCoherent | apps/api/src/channels/unread.service.ts:725-732 | Whatever is cached for anybody is what a fresh summary would be encoded as, after every operation |
| UnreadWorld.OthersKeepSummaries | apps/api/src/channels/unread.service.ts:671-817 | An operation changes the summary of one user in one workspace at most: the caller's, in the workspace of the channels it is about |
| UnreadWorld.AckMoves | apps/api/src/channels/unread.service.ts:671-710 | An ack moves one cursor, to the greater of what it was and the message, if that is live in the channel, and otherwise none |
| UnreadWorld.MarkUnreadMoves | apps/api/src/channels/unread.service.ts:758-795 | Marking a message unread moves one cursor, so that exactly the roots and broadcasts from the message on lie after it; a message that is not live in the channel moves none |
| UnreadWorld.EmptyUndo | apps/api/src/channels/unread.service.ts:1229-1252 | An undo of a snapshot in which nothing had moved consumes it and changes nothing else |
| UnreadWorld.NothingToMark | apps/api/src/channels/unread.service.ts:944-981 | A mark-all that finds nothing unread leaves every cached entry and cursor as it was |
| UnreadWorld.ReadTotalFills | apps/api/src/channels/unread.service.ts:1442-1479 | A read through the cache leaves an entry that folds to the total it answered, and changes nothing else |
| UnreadWorld.SnapshotLasts | apps/api/src/channels/unread.service.ts:1408-1424 | Once the fast copy is gone the durable one can be claimed for five minutes |
| Totals.CacheFoldsToTotal | apps/api/src/channels/unread.service.ts:1627-1666 | Writing a summary to the hash and folding it back gives the summary's total, `hasMention` included and the sentinel left out |
| Totals.FoldChannels | apps/api/src/channels/unread.service.ts:1559-1572 | The fold over channels is the sum of their counts, whatever their order |
| Totals.FoldCache | apps/api/src/channels/unread.service.ts:1649-1666 | The fold over hash fields is the sum over the channel fields, with `hasMention` read off the mention count |
| Totals.WriteCache | apps/api/src/channels/unread.service.ts:1627-1647 | The hash written holds every channel of the summary and the sentinel, and nothing else |
| UnreadWorld.ConsumedAtMostOnce | apps/api/src/channels/unread.service.ts:1363-1424 | In every serial run without store faults a snapshot is consumed at most once |
| UnreadWorld.OnlyTheOwner | apps/api/src/channels/unread.service.ts:1363-1424 | A claim by anyone but the owner gets nothing and consumes nothing, with or without store faults |
| UnreadWorld.SecondClaimIff | apps/api/src/channels/unread.service.ts:1372-1392 | Store faults alone, claim after claim: a second one succeeds if and only if the fast claim failed while the key was there, or went through and the unexpired row could not be deleted |
| ClaimRace.AtMostOnceIff | apps/api/src/channels/unread.service.ts:1363-1424 | For any number of callers, one store access at a time and without faults: at most one call gets the snapshot if and only if nobody else's fallback takes the row between a caller's scripted claim and its deletion of the row |
| ClaimRace.TwiceIsOvertaken | apps/api/src/channels/unread.service.ts:1372-1392 | Of two calls that get the snapshot the first took the key, the second the row, and the first had not come to delete it |
| ClaimRace.EachCopyOnce | apps/api/src/channels/unread.service.ts:1363-1424 | Whatever interleaves and whatever fails, each of the two copies is given away at most once |
| ClaimRace.BothGet | apps/api/src/channels/unread.service.ts:1372-1424 | Such a run: two calls of the owner both get the snapshot, where the documentation says the second is not found |
| ClaimRace.UndisturbedClaim | apps/api/src/channels/unread.service.ts:1363-1424 | A call that nobody interrupts takes and leaves what the claim of the serial model does, under the same faults |
| UnreadWorld.UndoReverts | apps/api/src/channels/unread.service.ts:1229-1252 | Mark-all-read and its undo leave every cursor and unread set of every user as before, and the snapshot gone |
| NewPosts.PostStaleIff | apps/api/src/channels/unread.service.ts:178-184 | The documentation says a new message drops cached totals; the code does not, and a total cached before the message stays right if and only if the message is not one the reader's total counts |
| NewPosts.PostLeavesStale | apps/api/src/channels/unread.service.ts:178-184 | The first message of a public channel is such a message |
| OtherChanges.AccessStaleIff | apps/api/src/channels/unread.service.ts:178-184 | A change of channels or overrides that only takes channels from a reader, or only brings some, drops nothing, and leaves the cached total right if and only if nothing is unread in any of them |
| OtherChanges.ChannelStaleIff | apps/api/src/channels/unread.service.ts:178-184 | Any change of one channel leaves it right if and only if it does not turn whether the channel is summarised for the reader, or nothing is unread in it |
| OtherChanges.ArchiveStaleIff | apps/api/src/channels/unread.service.ts:178-184 | Archiving a summarised channel leaves the total stale if and only if something is unread in it |
| OtherChanges.OverrideStaleIff | apps/api/src/channels/unread.service.ts:178-184 | A change of a reader's overrides on a channel leaves the total stale if and only if it turns what the query shows, the channel is neither archived nor deleted, and something is unread in it |
| OtherChanges.DeleteStaleIff | apps/api/src/messages/messages.service.ts:3910-3911 | A deletion that drops nothing, as of a message that is no broadcast, leaves the total stale if and only if the message was unread in a channel summarised for the reader |
| CacheFence.TokenHeld | apps/api/src/channels/unread.service.ts:1593-1601 | Under any interleaving a caller's token stays in the lock until it expires or that caller releases it |
| CacheFence.ExclusiveWithoutExpiry | apps/api/src/channels/unread.service.ts:1452-1478 | While no lock expires at most one caller is between locking and releasing |
| CacheFence.StaleIff | apps/api/src/channels/unread.service.ts:1442-1513 | Under any interleaving of callers, lock expiries, changes and later invalidations, a run ends stale if and only if some caller wrote a summary that the tables no longer had and nothing dropped or overwrote it afterwards |
| CacheFence.LateMeansChanged | apps/api/src/channels/unread.service.ts:1470-1475 | Such a write has a change that altered the summary between its caller's reading of the tables and the write |
| CacheFence.FreshUnlessOvertaken | apps/api/src/channels/unread.service.ts:1442-1513 | If no change that alters the summary comes between a caller's reading and its write, every run whose changes drop the entry ends fresh, lock expiry included |
| CacheFence.AnswersAreHistoric | apps/api/src/channels/unread.service.ts:1442-1479 | Under any interleaving no caller, waiting or not, is answered a total that the tables never had |
| CacheFence.AloneFills | apps/api/src/channels/unread.service.ts:1470-1478 | A caller alone takes the lock, fills the cache with the summary there is, and lets go |
| CacheFence.AloneAnswers | apps/api/src/channels/unread.service.ts:1455-1468 | A caller that finds the lock taken answers the entry there is, or after three looks the tables' summary, and leaves lock and cache alone |
| CacheFence.LateWriteStaleIff | apps/api/src/channels/unread.service.ts:1470-1475 | The smallest stale run: summarize, change, invalidate, write, stale if and only if the change altered the summary |
| UnreadService.UnreadService.AckRead | apps/api/src/channels/unread.service.ts:671-741 | The stores change as the ack step says; the answer reports the stored cursor, the number of live root or broadcast messages after it and the number of those that mention the user; an unknown, foreign or deleted message changes nothing |
| UnreadService.UnreadService.MarkUnread | apps/api/src/channels/unread.service.ts:758-817 | The stores change as the mark-unread step says, after which exactly the roots and broadcasts from the message on are unread; the answer reports the new cursor and the same counts after it |
| UnreadService.UnreadService.MarkAllRead | apps/api/src/channels/unread.service.ts:944-981 | The stores change as the mark-all step says; the answers are about exactly the channels that moved and report their new cursor and nothing unread |
| UnreadService.UnreadService.UndoMarkAllRead | apps/api/src/channels/unread.service.ts:1229-1252 | The stores change as the undo step says, under any faults of the stores; every answer reports the restored cursor, the number of all live messages after it and of those that mention the user; without a snapshot to claim the answer is not-found |
| UnreadService.ChannelPayloadReports | apps/api/src/channels/unread.service.ts:713-740 | The payload of a channel counts the live root or broadcast messages after the cursor, and of these the ones that mention the user |
| UnreadService.RestoredPayloadReports | apps/api/src/channels/unread.service.ts:1326-1346 | The payload of a restored channel counts all live messages after the cursor, and of these the ones that mention the user |
| UnreadService.UnreadService.LoadAndConsumeSnapshot | apps/api/src/channels/unread.service.ts:1363-1424 | What is returned and what is consumed is the owner-gated claim, whichever of the store accesses fail, and what the key holds being readable or not |
| UnreadService.UnreadService.CachedWorkspaceTotal | apps/api/src/channels/unread.service.ts:1442-1479 | The total is read through the cache and a miss fills it unless the lock is taken; who waits for the lock answers the first entry that its three looks find, and else the tables; only the caller's own lock is released |
| UnreadService.AdvanceAllVisible | apps/api/src/channels/unread.service.ts:993-1131 | The upsert writes the latest counted message of every visible channel that is before it, and captures what it overwrites |
| UnreadService.QuerySummary | apps/api/src/channels/unread.service.ts:208-313 | The rows are the counts, mentions and latest unread time of every visible channel that is not archived |
| Totals.RowMeans | apps/api/src/channels/unread.service.ts:208-313 | A row has the number of live roots and broadcasts after the cursor, of those that mention the user, and the time of the latest |
| UnreadPages.StrictTotalOrder | apps/api/src/channels/unread.service.ts:21-33 | The comparator is a strict total order on distinct channels, mentions first, then recency with null last |
| UnreadPages.SortedUnique | apps/api/src/channels/unread.service.ts:338-338 | A set of channels has one sorted listing only |
| UnreadPages.WalkVisitsAll | apps/api/src/channels/unread.service.ts:326-423 | From any cursor, following `nextCursor` visits what remains, in order, on pages within the capped limit, and stops |
| UnreadPages.ListingExists | apps/api/src/channels/unread.service.ts:336-338 | A summary has a sorted listing, as the comparator leaves no two channels equal |
| UnreadPages.EveryChannelOnce | apps/api/src/channels/unread.service.ts:326-423 | From the start, the pages list every channel that is visible, not archived and has something unread, each of them once, in order, with its mention flag and latest time, and no other |
| RateLimit.WindowsHold | apps/api/src/attachments/upload-rate-limit.service.ts:56-85 | In every run with a clock that does not run backwards, every (t-60 s, t] holds at most 10 grants and every (t-900 s, t] at most 60, for all t |
| RateLimit.DecidesByTheLog | apps/api/src/attachments/upload-rate-limit.service.ts:62-74 | The pruned, expiring windows decide as the whole history would: granted if and only if neither window ending now would pass its cap |
| RateLimit.RejectedLeaveNoTrace | apps/api/src/attachments/upload-rate-limit.service.ts:69-74 | Leaving all rejected calls out of a run, the same grants are given and every later call is decided the same |
| RateLimit.ExpiryIsSilent | apps/api/src/attachments/upload-rate-limit.service.ts:82-84 | The expiry of the key never takes an entry that is still inside its window |
| RateLimit.UploadRateLimit.EnforceWindows | apps/api/src/attachments/upload-rate-limit.service.ts:56-85 | With nothing between them, peek and commit change the two windows as one step and fail exactly when a count does not fit |
| RateLimit.UploadRateLimit.Peek | apps/api/src/attachments/upload-rate-limit.service.ts:59-74 | Drops what has left each window and lets the caller through if and only if both have room for its count |
| RateLimit.UploadRateLimit.Commit | apps/api/src/attachments/upload-rate-limit.service.ts:75-84 | Adds the caller's entries to both windows, whatever they hold by now |
| RateRace.PeekDecides | apps/api/src/attachments/upload-rate-limit.service.ts:62-74 | Whatever interleaves, a peek lets a caller through if and only if its count fits both windows of the log, ending now |
| RateRace.PromptIsWhole | apps/api/src/attachments/upload-rate-limit.service.ts:56-85 | A call with nothing between its peek and its commit is the call as one step |
| RateRace.CommitHoldsIff | apps/api/src/attachments/upload-rate-limit.service.ts:75-84 | A commit keeps a cap if and only if the cap held and the commit fits every window that contains it |
| RateRace.WindowsHoldIff | apps/api/src/attachments/upload-rate-limit.service.ts:56-85 | Under any interleaving of any number of callers, with any clocks, a cap holds of every window if and only if each commit fitted the log when it came |
| RateRace.WindowsHoldUndisturbed | apps/api/src/attachments/upload-rate-limit.service.ts:56-85 | In every interleaving in which nothing commits between a caller's peek and its commit, both caps hold of every window |
| RateRace.TwoPassTogether | apps/api/src/attachments/upload-rate-limit.service.ts:62-84 | Two callers who both peek first put twenty in a minute |
| UploadRace.OneAttachmentASession | apps/api/src/attachments/attachment-upload.service.ts:297-401 | Under any interleaving of `complete` calls, one store access at a time, with uploads, cleanups, links and deletions: no session is ever made into two attachments, a session still present is completed exactly when it was made into one, and an attachment is its session owner's, in its channel |
| UploadRace.CompletedIffAttached | apps/api/src/attachments/attachment-upload.service.ts:360-399 | Until an attachment is deleted, a session still present is completed if and only if it has its attachment |
| UploadLinks.LinksAreTold | apps/api/src/attachments/attachment-upload.service.ts:371-397 | In every run an attachment has a link time if and only if it has a message, and both are those of the send that named it or of the call that made it |
| UploadLinks.OrphanIff | apps/api/src/attachments/attachment-gc.service.ts:79-82 | The sweep takes no attachment of a message for an orphan, and any other once it is past the grace |
| UploadRace.UndisturbedItem | apps/api/src/attachments/attachment-upload.service.ts:298-400 | Left alone, the store accesses of an item do what the loop body does as a whole, whichever check it fails |
| UploadRace.UndisturbedCall | apps/api/src/attachments/attachment-upload.service.ts:297-404 | Left alone, the accesses of a call do what the call as a whole does |
| UploadAnswers.AdmitAnswers | apps/api/src/attachments/attachment-upload.service.ts:252-295 | Which of missing message, wrong or missing target, missing right and excess count a call is refused for, in this order, and what it goes on with otherwise |
| UploadAnswers.ItemAnswers | apps/api/src/attachments/attachment-upload.service.ts:297-350 | Which of its checks an item fails: not the caller's or not open, expired, not uploaded, of the wrong size, of the wrong signature; only the last leaves a trace, session and object being gone |
| UploadAnswers.ItemMakes | apps/api/src/attachments/attachment-upload.service.ts:353-401 | A completed item closes its session and makes one attachment of it, in the call's channel, by its caller, linked now to its message if it has one; everything else stays |
| UploadAnswers.SendDoesLink | apps/api/src/messages/messages.service.ts:1996-2011 | A send links every attachment it names that is the sender's, in its channel and not linked yet, and no other |
| Upload.CompleteOkIff | apps/api/src/attachments/attachment-upload.service.ts:297-404 | A call on its own succeeds if and only if every listed session can be completed and none is listed twice, and answers one attachment a session in order |
| Upload.AtMostTen | apps/api/src/attachments/attachment-upload.service.ts:286-295 | With nobody else at work an admitted call never leaves a message with more than ten attachments, even when it fails midway |
| UploadCap.TenWhenOneAtATime | apps/api/src/attachments/attachment-upload.service.ts:287-295 | In every run a message has at most ten attachments at every moment, if no call to it begins while another call to it is unfinished |
| UploadCap.CountSplits | apps/api/src/attachments/attachment-upload.service.ts:287-401 | What a message has is what the call counted when it was admitted, what the call attached since, and what the others did meanwhile |
| UploadCap.CommitPassesTenIff | apps/api/src/attachments/attachment-upload.service.ts:360-399 | A commit passes ten if and only if the others attached, since its call was counted in, more than the room that count left; that is at least one more than its call still had to come when ten were asked for in all |
| UploadCap.TwoAdmittedAdd | apps/api/src/attachments/attachment-upload.service.ts:287-401 | Two calls admitted on one count and left to themselves add all their items to it |
| UploadCap.TwoCallsPassTen | apps/api/src/attachments/attachment-upload.service.ts:287-295 | A reachable run: two calls of six items are admitted on an empty message, which ends with twelve |
| UploadObjects.UncheckedIff | apps/api/src/attachments/attachment-upload.service.ts:324-360 | An attachment is committed over an object that is not what was declared if and only if the object was replaced or removed between the size check and the transaction and not put right again |
| UploadObjects.ChangedBy | apps/api/src/attachments/attachment-upload.service.ts:344-344 | Only an upload, a deletion, or a call that finds a wrong signature changes an object |
| UploadObjects.ReplacedBeforeCommit | apps/api/src/attachments/attachment-upload.service.ts:324-372 | A reachable run: a second upload just before the transaction, and the attachment stands over an object of another size |
| Upload.UploadService.Complete | apps/api/src/attachments/attachment-upload.service.ts:242-404 | Every check, the deletion on a bad signature and the loop change the tables and answer as the specification of the call says, an early failure changing nothing |
| Gc.AttachmentGc.Sweep | apps/api/src/attachments/attachment-gc.service.ts:63-167 | Whatever fails, the sweep ends; it removes only unlinked attachments past 24 hours and uncompleted expired sessions, changes nothing else but the mark on such attachments, deletes only their objects, and stops settled; the four counters are the removals, marks and failures of the tries, batch by batch |
| GcRace.SelectsTheSame | apps/api/src/attachments/attachment-gc.service.ts:81-144 | What the two queries select is what the shared model of both loops takes |
| GcRace.AloneSweeps | apps/api/src/attachments/attachment-gc.service.ts:98-152 | With nobody else at work a loop takes the rows it selected, with their objects, and leaves every other |
| GcRace.KeptIsDeletedIff | apps/api/src/attachments/attachment-gc.service.ts:79-152 | Either loop deletes a row it must not, a linked attachment or a completed session, if and only if it was linked or completed between the selection of its batch and its turn |
| GcRace.LostIff | apps/api/src/attachments/attachment-gc.service.ts:79-152 | A linked attachment, or one made of a completed session, loses its object to the sweep if and only if the link or completion came after the selection of the batch from which the object is deleted, be it before or after the deletion |
| GcRace.SentAndLost | apps/api/src/messages/messages.service.ts:1996-2011 | Selected, sent with a message, deleted |
| GcRace.CompletedAndLost | apps/api/src/attachments/attachment-gc.service.ts:138-152 | A call passes its checks in time, the session expires and is selected, the call completes it, and the attachment loses its object |
| Gc.FewFailuresLeaveOnlyThemselves | apps/api/src/attachments/attachment-gc.service.ts:126-135 | When fewer rows than a batch ever fail, a settled loop leaves none but those, and with no failures nothing |
| Gc.AttachmentGc.SweepAttachments | apps/api/src/attachments/attachment-gc.service.ts:79-136 | The first loop, on its own: it terminates and stops either with every matching row just failed or after a full batch that failed altogether |
| Gc.AttachmentGc.SweepSessions | apps/api/src/attachments/attachment-gc.service.ts:138-162 | The same for the second loop |
| Gc.AttachmentGc.TryOrphans | apps/api/src/attachments/attachment-gc.service.ts:98-125 | A batch isolates failures: every row is tried once, and rows, objects and counters change exactly by the tries that succeed |
| Gc.TryStops | apps/api/src/attachments/attachment-gc.service.ts:98-125 | A try stops at the first of its accesses that fails: reading, marking a mismatch, deleting the object, deleting the row |
| Gc.TakeOldest | apps/api/src/attachments/attachment-gc.service.ts:90-96 | A batch is at most 500 distinct matching rows, none left out being older, and fewer only when it is all of them |
| BigIntWalk.HasBigInt | packages/shared-types/src/bigint.ts:68-99 | On any graph, cyclic or not, the walk terminates and is true if and only if a bigint can be reached through plain objects and arrays |
| BigIntWalk.BigIntLeftIff | packages/shared-types/src/bigint.ts:28-61 | A bigint can still be reached in the copy if and only if some plain node leading to one is arrived at more than once, by sharing or by a cycle |
| BigIntWalk.TreesComeOutClean | packages/shared-types/src/bigint.ts:28-61 | On unshared trees the copy holds no bigint and none of the payload's own plain nodes |
| BigIntWalk.OriginalsAreRevisits | packages/shared-types/src/bigint.ts:48-51 | The copy contains an original node exactly when the walk arrives at it twice, as often as it arrives again |
| BigIntWalk.SerializeBigInts | packages/shared-types/src/bigint.ts:28-61 | The walk terminates; the copy has the payload's shape, keys and values, changes nothing when there is no bigint, and leaves a bigint only as above |
| BigIntWalk.HasBigIntNode | packages/shared-types/src/bigint.ts:72-99 | The recursion over the shared `seen` set answers and marks as the depth-first search does |
| BigIntWalk.SerializeNode | packages/shared-types/src/bigint.ts:32-61 | The recursion over the shared `seen` set returns and marks as the depth-first copy does |
| BigIntWalk.SharedTwiceSurvives | packages/shared-types/src/bigint.ts:49-51 | A list that holds one object with a bigint twice keeps the bigint in its second place |
| Friends.RowsTellHistory | apps/api/src/friends/friends.service.ts:94-294 | In every serial run there is at most one row for two users, it says exactly what their last deed was, and every deed was one that the deeds before it allowed |
| Friends.BlockerIsTheLast | apps/api/src/friends/friends.service.ts:229-271 | A blocked row's requester is the last of the two to block, with nothing done between them since |
| Friends.BlockEndsIff | apps/api/src/friends/friends.service.ts:273-294 | One operation ends a block if and only if it is the blocker's unblock, which leaves no row, or the other side's block, which takes its place |
| Friends.FriendsWereAsked | apps/api/src/friends/friends.service.ts:183-206 | An accepted row was requested by its requester, and next accepted or requested back by its addressee |
| Friends.StepExplained | apps/api/src/friends/friends.service.ts:94-294 | Every operation keeps one row a pair and changes no relation but that of the two users it is about, as that relation allows |
| FriendAnswers.RequestAnswers | apps/api/src/friends/friends.service.ts:94-132 | Which rows between the two a request is refused or accepted for: no such user, oneself, a block, a friendship, a request of one's own, a waiting request |
| FriendAnswers.NewRequestAnswers | apps/api/src/friends/friends.service.ts:133-165 | With no row between the two, the target's policy, then the cap of a thousand friends, then the new request |
| FriendAnswers.AnswerAnswers | apps/api/src/friends/friends.service.ts:183-227 | When accepting, rejecting and removing go through, fail, or do nothing, by the row that is named |
| FriendAnswers.BlockAnswers | apps/api/src/friends/friends.service.ts:229-294 | A block goes through for everybody but oneself and leaves the caller's own; an unblock clears just that |
| FriendCap.CapKeptIff | apps/api/src/friends/friends.service.ts:94-206 | A user within the cap stays within it if and only if the operation is not, while the user is at the cap, the accept of a pending row of theirs by its addressee, or the addressee's own request back |
| FriendCap.CapInEveryRun | apps/api/src/friends/friends.service.ts:94-294 | A user is within the cap throughout a run if and only if no operation of it is such a one |
| FriendCap.CapIsPassed | apps/api/src/friends/friends.service.ts:183-206 | A reachable run: a user with a thousand friends is asked once more and accepts |
| FriendRace.PromptIsWhole | apps/api/src/friends/friends.service.ts:94-294 | Any operation with nothing between its lookup and its write is the operation as one step |
| FriendRace.PromptRefused | apps/api/src/friends/friends.service.ts:252-265 | A counter-block that the table refuses looks again and blocks the row it finds, as it does in one step |
| FriendRace.PairKeptIff | apps/api/src/friends/friends.service.ts:94-294 | In every run of any number of operations, one table access at a time, there is one row a pair throughout if and only if no request or block creates a row while the opposite row has come since its own lookup |
| FriendRace.AccessKeepsPairIff | apps/api/src/friends/friends.service.ts:94-294 | One access breaks the rule of one row a pair if and only if it creates a row beside the opposite one |
| FriendRace.BlockEndsIff | apps/api/src/friends/friends.service.ts:112-294 | In every run a block ends with the blocker's unblock, with a counter-block that goes through, or with an accept, reject, remove or counter-request whose read came before the block, and with nothing else |
| FriendRace.BlockEndsAs | apps/api/src/friends/friends.service.ts:112-294 | A late accept or counter-request makes the block a friendship, a counter-block takes its place, the others leave no row |
| FriendRace.CapKeptIff | apps/api/src/friends/friends.service.ts:112-206 | Under any interleaving an access takes a user within the cap past it if and only if, at the cap, it makes one of the user's rows a friendship |
| FriendRace.BothAsk | apps/api/src/friends/friends.service.ts:94-181 | Two users who ask each other at once |
| FriendRace.BothBlock | apps/api/src/friends/friends.service.ts:229-271 | Two users who block each other at once: two rows |
| FriendRace.LateAccept | apps/api/src/friends/friends.service.ts:183-196 | A request is read by its addressee, turned into a block by its sender, and then accepted: the two are friends |
| Friends.FriendsService.RequestByUsername | apps/api/src/friends/friends.service.ts:94-181 | Errors, the acceptance of a waiting request and the new request are those of the step, in the order of the branches |
| Friends.FriendsService.CreateRequest | apps/api/src/friends/friends.service.ts:137-180 | The creation after the lookup, whatever came between: the cap, the new row, or the row that is there already |
| Friends.FriendsService.Block | apps/api/src/friends/friends.service.ts:229-271 | The caller's row is flipped, the other side's is replaced by the caller's own, or a new one comes, as the step says; a row id already taken falls back to the row that is there or fails |
| Friends.FriendsService.Unblock | apps/api/src/friends/friends.service.ts:273-294 | Only the blocker's own block is cleared; anything else changes nothing |
| Friends.FriendsService.Accept | apps/api/src/friends/friends.service.ts:183-206 | Only the addressee accepts, and only what is pending |
| Friends.FriendsService.Reject | apps/api/src/friends/friends.service.ts:208-215 | Only the addressee rejects, and only what is pending; a missing row is no error |
| Friends.FriendsService.Remove | apps/api/src/friends/friends.service.ts:217-227 | Only a participant removes, and only what is accepted; a missing row is no error |
| Reorder.RequestPlaces | apps/api/src/channels/channels.service.ts:1160-1190 | Every listed channel that can be locked is placed: in the place of its last item, at 1000 times the number of lockable items of its category up to that one |
| Reorder.ListedNeverCollide | apps/api/src/channels/channels.service.ts:1180-1190 | The listed channels get positive multiples of 1000, no two the same in one category, repeated ids included |
| Reorder.CategoryInOrder | apps/api/src/channels/channels.service.ts:1180-1190 | With distinct ids a category's channels stand at 1000, 2000, … in the order of the request, so sorting by position gives that order back |
| Reorder.OthersUnchanged | apps/api/src/channels/channels.service.ts:1162-1172 | Unlisted, foreign and deleted channels stay as they were |
| Reorder.NothingApplicableIff | apps/api/src/channels/channels.service.ts:1172-1178 | The batch fails if and only if none of its ids can be locked |
| Reorder.CollidesIff | apps/api/src/channels/channels.service.ts:1160-1190 | A listed channel, in the place of its last item, shares its position with an unlisted one of its category if and only if that one already stood there; repeated ids included |
| Reorder.UnlistedMayCollide | apps/api/src/channels/channels.service.ts:1160-1190 | Listing one of two channels puts both at 1000 |
| Reorder.ChannelService.ReorderChannels | apps/api/src/channels/channels.service.ts:1152-1191 | The loop over the counters by category leaves the rows as the updates in order do, so that every lockable channel of the request stands where its place in the request says; a failing batch changes nothing |

## Left out

- Permissions.QueryAgreesIff: the masks of the queries are taken as 32-bit patterns; overrides wider than that are not modelled.
- Permissions.ListAgreesIff: `allowMask > 0` is taken as a non-empty mask.
- UnreadWorld.TotalsAlwaysFresh: a claim about serial runs, given that other changes drop the entries whose summary they change and keep channels in their workspace; `CacheFence.StaleIff`, `NewPosts.PostStaleIff` and `OtherChanges` say where the code itself does not.
- UnreadWorld.ConsumedAtMostOnce: a claim about serial runs without store faults; `ClaimRace.AtMostOnceIff` is about overlapping calls and `UnreadWorld.SecondClaimIff` about faults.
- ClaimRace.AtMostOnceIff: one snapshot and no store faults; `ClaimRace.EachCopyOnce` holds under faults too.
- UnreadService.UnreadService.CachedWorkspaceTotal: what a waiting caller finds is a parameter, and the tables stand still meanwhile; `CacheFence` lets them move. Without the key-value store the total is that of a miss.
- CacheFence.StaleIff: every change is followed, sooner or later, by an invalidation that gets through; a failed one leaves the entry until it expires. Whether a caller is answered fresh is not stated, only that it is answered what was true at some time.
- RateLimit.WindowsHold: one caller at a time; `RateRace.WindowsHoldIff` is about any interleaving.
- RateRace.WindowsHoldIff: the store answers, and its clock is the caller's; a failed count reads as zero in the code. Expiry of the keys is silent (`RateLimit.ExpiryIsSilent`) and not an event there.
- Upload.AtMostTen: the count is taken outside the transactions, so it is a claim about one call at a time; `UploadCap` is about any number.
- UploadCap.TenWhenOneAtATime: a send creates its message together with its links, at most ten of them; editing a message attaches nothing.
- UploadRace.CompletedIffAttached: the sweep deletes attachments of completed sessions, and then the session stays completed without one; `UploadRace.OneAttachmentASession` holds all the same.
- Gc.AttachmentGc.Sweep: a try that fails removes no row, and nobody writes meanwhile; `GcRace` lets others write between the selection of a batch and its deletions.
- GcRace.LostIff: no object comes back by another upload; that only calls which passed their checks complete a session is not part of it, so it holds of those in particular.
- OtherChanges.AccessStaleIff: a change that takes some channels and brings others, such as of a role, is not covered; what it takes and brings can cancel out.
- UploadObjects.UncheckedIff: about the time up to the transaction; afterwards an object can still be replaced through a signed url that has not expired.
- Gc.FewFailuresLeaveOnlyThemselves: a batch of rows that always fail, oldest first, keeps younger rows from being swept; that is the other way a loop may settle.
- Friends.RowsTellHistory: row ids are drawn fresh and operations run one after another, as for `Friends.BlockerIsTheLast` and `Friends.FriendsWereAsked`; what a late write does to these is not stated beyond `FriendRace.BlockEndsIff`. A missing target user of a block is not modelled.
- FriendRace.PairKeptIff: the count and the creation of a request are one access, as the serializable transaction makes them, and so are the deletion and creation of a counter-block; no row id is drawn twice.
- Parser.ParseInlineRun: the body of its loop is split into the methods `Turn`, `AtomTurn` and `MarkerTurn`.
- BigIntWalk.SerializeBigInts: keys are names without the special meaning of `__proto__`; a bigint becomes the string of its number, whose digits are not spelt out.
- Chars.Split: characters are UTF-16 code units; no normalisation.
- Utf8.ByteLength: the 64 KB limit itself is not modelled, since the JSON text of a tree is not.
- Emoji, dividers and subtext occur in the tree type and in its measurement, but the parser makes none.
- The extraction of mentioned users from raw text, url normalisation and link previews.
- Preview bodies, masking of blocked authors and the text form of the page cursor; sorting is taken from its result, which exists and is unique.
- `markRead`, `markChannelReadToLatest` and totals over all workspaces at once, which add no new case.
- Integer limits of counts, time-to-live of the cache beyond expiry at any moment, events, audit, metrics, and transport.
- The older upload path without sessions (`attachments.service.ts`), which never touches a session or a message, and the anonymisation of uploaders.
- Upload initiation apart from its rate limit: size and extension policies, signed urls, and the count of concurrent sessions.
- The friend request policy is a parameter; listing friends and events are not modelled.
- Single-channel moves between neighbouring positions, and the listing after a reorder.
- Permission strings, validation of masks and the catalogue of flags.
- Controllers, schemas of other entities, queues, mail, sessions, the web client and the load scripts.
