# Personal World: model and proofs

Personal World is a Python service for a person's home place. This project models the parts of it
that keep state or scan text, and proves what each of them keeps over every input or every run:

- **Tool calls from small models** (`JsonScan`, `ObjectSplit`, `LenientCalls`, `Wrappers`, `TextRepairs`,
  `Blanking`): closing what truncated JSON leaves open, splitting a reply into top-level objects,
  recovering calls inside and outside wrappers, cutting them out and cleaning the visible text. `json.loads`, `ast.literal_eval` and `json.dumps` are arbitrary functions. The strings
  and escapes are those of section 7 of RFC 8259.
- **The tool loop and proposals** (`ToolLoop`, `Proposals`, `DraftBlocks`): the bounded dialogue with a provider and a
  tool registry, both of which may answer anything at any time, and the fenced block in which an
  assistant drafts a correction.
- **The journal** (`JournalLog`, in `Journal.dfy`): an append-only log whose present view comes from
  backward links alone, and the API act that corrects an entry. Times are unique keys, as
  `src/personal_world/model.py:186-193` has it.
- **People, sessions, limits** (`Roles`, `Identity`, `Authority`, `Sessions`, `RateLimiter`): who owns the
  place and who may change that, what groups and migrations may change, bounded elevation, and the sliding window on journal questions.
- **The crew** (`CrewIds`, `Crew`, `CrewRequests`): fresh ids, the roster with its keepers, and the file it is kept in.
- **Smaller machines** (`LoreSync`, `SyncResults`, `BriefingPool`, `Contributions`, `Learning`,
  `JournalGate`): syncing lore from a room,
  the pool of things that need the person, how often an idea is taught, and the closed door onto
  the journal.

`PyText` holds the Python string operations these rest on, `TextOrder` what it means that one text's
characters come in order from another, `JsonValues` the parsed values.

Objects that the code changes in place are classes here (`Journal`, `Limiter`, `Session`,
`SessionStore`, `IdentityStore`, `CrewState`, `World`, `LearningMemory`); loops are loops. Each method is
proved equal to a function of its inputs and the old state, and the lemmas are about those functions.
`Wrappers`, `TextRepairs`, `DraftBlocks`, `Authority`, `CrewRequests`, `SyncResults` and `Contributions` say
what those functions come to in terms of the inputs alone: by how texts are put together, by positions
in lists, and with the code's own constants written out.

`dafny verify dfyconfig.toml` checks everything.

## Where the code does less than its comments say

A claim that fails has a lemma with an input on which it does, and one saying exactly when it holds.

- `src/personal_world/chat_registry.py:220-221` says prose without calls passes through untouched. It does
  if and only if it mentions no call word or is already tidy: `LenientCalls.ProseUnchanged`, and
  `LenientCalls.ProseWithCallWordIsTidied` for the input.
- `src/personal_world/chat_registry.py:30-34` lists objects in single quotes among what is recovered. Without a
  marker a call in the open is recovered if and only if one of three names stands somewhere in the text
  in double quotes: `LenientCalls.ObjectIsCalledIff`, and `LenientCalls.SingleQuotedCallIsLost` for an
  object that is lost.
- `src/personal_world/chat_registry.py:38-39` promises that wrapper tokens never reach a human. The seven markers
  do not (`LenientCalls.NoMarkerSurvives`), but `</tool_response>`, which ends a wrapper too, is no
  marker: `LenientCalls.EndTokenIsShown`. A reply without calls shows it if and only if it stands
  outside the wrappers, or nothing else does: `LenientCalls.EndTokenShownIff`.
- `src/personal_world/chat_registry.py:219-220` says the visible text has its calls removed. Each is removed by
  its text, wherever that stands first. Of an object that is no call and holds a copy of the call behind
  it, as in `{"a":{"name":"x"}} {"name":"x"}`, the copy goes and the call stays:
  `Blanking.CopyIsCutInstead`. The calls are cut out where they stand if and only if, at its turn, each
  is the first place with its text: `Blanking.BlankedInPlaceIff`.
- `src/personal_world/chat_registry.py:58-66` closes what truncated JSON leaves open. A text cut right after
  an unescaped backslash swallows the quote that is appended to it: `JsonScan.DanglingCutStaysBroken`. It
  is the only failing family: `JsonScan.BalanceCompletes` and `JsonScan.BalanceIdempotent`.
- `src/personal_world/journal.py:146-149` promises the full chain of an entry. A history is the full chain if
  and only if the entry has at most a hundred predecessors and its direct correction, if any, has not
  been corrected in turn: `JournalLog.HistoryIsFullIff`. A chain of 102 versions loses its original
  (`JournalLog.HistoryLosesOriginal`), one of three its current version
  (`JournalLog.HistoryLacksCurrent`).
- `src/personal_world/crew.py:241-242` calls an id safe only as a slug. It also accepts one with a line break at
  its end, since `$` in a pattern does: `CrewIds.BrokenIdIsSafe`, exactly as
  `CrewIds.SafeIdIsSlugOrBroken` says. No handler makes such an id.
- `src/personal_world/identity.py:311-316` has exactly one owner by design. A bootstrap owner without a record
  who hands ownership on leaves a store in which making sure of the primary person makes a second:
  `Identity.SecondOwner`. That happens exactly where there is no primary record:
  `Identity.BootKeepsOneOwnerIff` and `Identity.RenameKeepsOneOwnerIff`.
- `src/personal_world/lore_sync.py:12-13` marks an item gone that is no longer in its source. Keys are found by
  prefix, so two sources of which one name with its colon begins the other mark each other's lore:
  `LoreSync.OverlapDoesNotCommute`; all others commute: `LoreSync.CommuteIffApart`.
- `src/personal_world/briefing.py:877-879` says every room's needs join the list. Two rooms of one system whose
  needs carry no ids share the ids `need-0`, `need-1` and so on, and the second room's are dropped:
  `BriefingPool.SecondRoomsNeedIsLost`. A need is listed if and only if nothing else was contributed
  under its id before it: `BriefingPool.NeedListedIff`.
- `src/personal_world/journal_gate.py:25-27` and `:166-168` promise never an exception. The gate raises exactly when
  its model does (`JournalGate.Gate`), and the model that is asked over the network raises exactly on a
  reply with a part of the wrong kind: `JournalGate.RealModelRaisesIff`, and
  `JournalGate.NullContentRaises` for a reply whose content is null.

Two facts no comment speaks of:

- `unique_id` tries at most two candidates more than the roster has ids, and the last of them is needed only
  for a base that ends in a suffix of its own: `CrewIds.ExtraTryIff`, with `CrewIds.ExtraTry` for such a
  base and `CrewIds.TriesBound` for the one roster of each size that needs it.
- The leak check of `src/personal_world/journal_gate.py:228-230` never holds an answer back, because no word the
  schema admits is five words long: `JournalGate.ClosedSharesNothing`. The contract of
  `JournalGate.Validate` therefore does not mention the entries.

## Model

| member | source | states |
|---|---|---|
| JsonScan.BalanceJson | src/personal_world/chat_registry.py:58-92 | the scanning loop appends exactly the missing quote and closers, whatever the text |
| JsonScan.AfterBalancing | src/personal_world/chat_registry.py:58-92 | scanning the repaired text ends outside strings with nothing open, unless the text ended on a dangling backslash |
| JsonScan.BalanceIdempotent | src/personal_world/chat_registry.py:58-92 | repairing a repaired text changes nothing if and only if the text does not end right after an unescaped backslash in a string |
| JsonScan.BalanceCompletes | src/personal_world/chat_registry.py:58-92 | the repair is well nested, brackets matching in kind, if and only if some ending could make the text well nested and nothing dangles |
| JsonScan.BalanceMinimal | src/personal_world/chat_registry.py:58-92 | no shorter ending than the appended one makes the text well nested |
| JsonScan.DanglingCutStaysBroken | src/personal_world/chat_registry.py:86-91 | a concrete prefix of a well-nested object, cut after a backslash, that the repair leaves broken |
| ObjectSplit.SplitIntoObjects | src/personal_world/chat_registry.py:182-211 | the brace-counting loop returns the chunks between the spans of `SplitObjects` |
| ObjectSplit.SplitSound | src/personal_world/chat_registry.py:182-211 | the chunks are in order and disjoint, each starts at a structural brace at depth 0 and first returns to depth 0 at its end, or runs to the end of the text; there is no depth outside them |
| ObjectSplit.SplitUnique | src/personal_world/chat_registry.py:182-211 | that account determines the split: any sequence of spans meets it if and only if it is the one computed |
| ObjectSplit.NothingOpensOutside | src/personal_world/chat_registry.py:182-211 | every structural opening brace lies inside a chunk |
| ObjectSplit.ResplitIsIdentity | src/personal_world/chat_registry.py:182-211 | splitting any chunk again gives exactly that chunk |
| ObjectSplit.ObjectSplitOffIff | src/personal_world/chat_registry.py:182-211 | a well-nested object is split off whole where it stands, whatever follows it, if and only if the scan of what precedes it ends outside strings with no brace open |
| ObjectSplit.CutObjectSplitOff | src/personal_world/chat_registry.py:182-211 | an object in the open that the text breaks off in, at any place, is a chunk |
| LenientCalls.StripMarkers | src/personal_world/chat_registry.py:52-55 | the loop replaces the seven markers one kind after another |
| LenientCalls.CollectCalls | src/personal_world/chat_registry.py:263-270 | the loop over chunks gives the recovered calls in order and the text with the first occurrence of each of their chunks blanked |
| LenientCalls.CollectSegments | src/personal_world/chat_registry.py:234-262 | the loop over wrapper segments: up to its first end marker a segment is searched for calls, and what comes behind the marker is kept |
| LenientCalls.LenientToolCalls | src/personal_world/chat_registry.py:214-279 | the whole recovery, with every branch of the code; `Wrappers` says what it comes to for every content |
| LenientCalls.NoMarkerSurvives | src/personal_world/chat_registry.py:41-55 | for every content, the visible text holds none of the seven markers, however replacing, collapsing and joining move text together |
| LenientCalls.ReplyWords | src/personal_world/chat_registry.py:214-279 | every unbroken stretch of the visible text stands in the content |
| LenientCalls.ReplyInOrder | src/personal_world/chat_registry.py:214-279 | the visible characters of the text are some of the content's, in the content's order: nothing is invented, repeated or moved |
| LenientCalls.ProseUnchanged | src/personal_world/chat_registry.py:214-279 | marker-free content without calls comes back unchanged if and only if it mentions no call word or is already tidy |
| LenientCalls.ProseWithCallWordIsTidied | src/personal_world/chat_registry.py:220-230 | concrete prose that mentions a call word and loses a space |
| LenientCalls.TidiedIdentity | src/personal_world/chat_registry.py:274-276 | the final clean-up leaves exactly those texts alone that are trimmed and hold no doubled blanks and no gaps |
| LenientCalls.CoerceNeedsName | src/personal_world/chat_registry.py:137-179 | a call is made of an object if and only if one of the four places for a tool name holds a non-blank text; it carries the name from the first such place, trimmed, and the arguments from the first place for them that is there, or an empty object |
| LenientCalls.CallsAreFound | src/personal_world/chat_registry.py:214-279 | every returned call is what the parser makes of a chunk of a stretch of the content, or of what stands outside its wrappers; ids are pairwise distinct |
| LenientCalls.CallsAreExactly | src/personal_world/chat_registry.py:223-273 | a call is returned if and only if the content has a marker or a call word and the parser makes it of a chunk of a wrapper segment, or, no wrapper segment holding any call, of a chunk of what stands outside them: nothing is missed |
| Wrappers.EveryReply | src/personal_world/chat_registry.py:234-262 | every content is some text without openers, followed by wrappers, each an opener, what is inside, and the first end marker of its tuple that stands there with what comes behind, or no end marker |
| Wrappers.WrappedReply | src/personal_world/chat_registry.py:234-279 | for text followed by any number of wrappers: the calls are those of the objects inside the wrappers, numbered; the visible text is what stands before, between and behind them, the parts that are not blank joined by line breaks, cleaned up; if the wrappers hold no call, that text is searched for calls itself |
| Wrappers.OneWrapper | src/personal_world/chat_registry.py:241-262 | one wrapper around calls, by concatenation: the calls are those between its markers, and what stands before it and behind it is shown, on two lines if neither is blank |
| Wrappers.PlainReply | src/personal_world/chat_registry.py:223-231 | without markers, the content comes back as it is unless one of the three call words stands in it in double quotes; then its objects are searched and it is cleaned up |
| Wrappers.NoneOfTheSeven | src/personal_world/chat_registry.py:41-50 | none of the seven markers, written out, is ever shown |
| TextRepairs.LenientLoadsMeans | src/personal_world/chat_registry.py:95-134 | objects and lists are taken as they are, other values that are not text give nothing, and of a text from its first brace on the first of these that reads as an object: as it is, without trailing commas, also closed up, and closed up as a literal |
| TextRepairs.FirstComma | src/personal_world/chat_registry.py:114-118 | a comma is dropped, with the white space behind it, if and only if a closer follows |
| TextRepairs.CommaTrailedIsRead | src/personal_world/chat_registry.py:114-121 | an object whose last entry has a comma behind it is what the parser reads without the comma |
| TextRepairs.TruncatedIsRead | src/personal_world/chat_registry.py:119-126 | an object that breaks off is what the parser reads when the missing quote and closers are appended |
| TextRepairs.CallsInOrder | src/personal_world/chat_registry.py:263-270 | a chunk gives its call between those of the chunks before it and behind it, or none |
| TextRepairs.BlankRun | src/personal_world/chat_registry.py:274-276 | wherever it stands, a run of two or more blanks becomes one space and a single one stays |
| TextRepairs.GapRun | src/personal_world/chat_registry.py:274-276 | wherever it stands, a run of three or more line breaks becomes two, and a shorter one stays |
| LenientCalls.ObjectIsCalledIff | src/personal_world/chat_registry.py:225-270 | in text without markers, an object in the open of which the parser makes a call, whole or broken off where the text ends, is among the calls if and only if a call word stands in the text |
| LenientCalls.SingleQuotedCallIsLost | src/personal_world/chat_registry.py:226-230 | a concrete object in single quotes of which no call is recovered, whatever the parser makes of it |
| LenientCalls.EndTokenShownIff | src/personal_world/chat_registry.py:241-279 | a reply without calls shows the closing wrapper token that is no marker if and only if it stands outside the wrappers, or anywhere when nothing visible stands outside them |
| LenientCalls.EndTokenIsShown | src/personal_world/chat_registry.py:41-55 | behind any text without angle brackets and braces the closing wrapper token is shown |
| Blanking.BlankedInPlaceIff | src/personal_world/chat_registry.py:263-270 | the calls are cut out of the text where they stand if and only if, at its turn, each is the first place with its text |
| Blanking.CopyIsCutInstead | src/personal_world/chat_registry.py:270 | wherever an object that is no call holds the text of the call behind it, the copy is cut and the call stays |
| LenientCalls.FirstDictIsFirst | src/personal_world/chat_registry.py:95-134 | of the candidates tried, the first that reads as an object is returned, and nothing only if none does |
| Proposals.ReadFields | src/personal_world/chat.py:377-387 | the loop over a block's lines gives the fields, or refuses at the first bad line |
| Proposals.ReadFencedBlock | src/personal_world/chat.py:374-409 | one fenced block is not ours, malformed, or a draft |
| Proposals.ScanReply | src/personal_world/chat.py:369-411 | the loop over fences terminates and stops at the first block headed as a proposal |
| Proposals.ExtractProposal | src/personal_world/chat.py:357-411 | the proposal, if any, and the visible text |
| Proposals.ExtractPrinted | src/personal_world/chat.py:357-411 | round trip: four printable fields printed as a block after fence-free prose are read back exactly, colons included, and the text keeps what stands around the block |
| Proposals.ExtractAccepts | src/personal_world/chat.py:357-411 | for every reply, an accepted proposal has four non-empty trimmed one-line fields within the caps; where none is accepted the reply is shown as it is |
| DraftBlocks.DraftIff | src/personal_world/chat.py:374-409 | lines make a draft if and only if each is one of the four fields, none is given twice, all are there, not empty and within their caps |
| DraftBlocks.ReadBlockMeans | src/personal_world/chat.py:371-409 | a block given line by line is a draft if its first line that is not blank is the header and the others make one; with the header alone it is malformed, without it not ours |
| DraftBlocks.FirstHeadedDecides | src/personal_world/chat.py:369-411 | of any number of fenced blocks the first with the header decides: a draft is taken, with the text around its fences shown, and a malformed one leaves the reply as it is |
| DraftBlocks.NoneHeaded | src/personal_world/chat.py:369-411 | if no block has the header, the reply is left as it is |
| DraftBlocks.VisibleMeans | src/personal_world/chat.py:401-406 | what is shown is the trimmed text before, two line breaks, and the trimmed text behind, without the breaks if either side is blank |
| ToolLoop.ChatWithToolsLoop | src/personal_world/chat.py:113-231 | the loop over rounds, for any provider and registry |
| ToolLoop.RunCalls | src/personal_world/chat.py:170-213 | the inner loop over one turn's calls, left by an exception at the first whose `function` is there and not an object; `RepairMeans` and `CallsAreAnswered` say what a call comes to |
| ToolLoop.LoopIsSound | src/personal_world/chat.py:113-231 | the provider is asked at most `maxRounds` times; the given messages stay a prefix; each assistant turn is followed by exactly one reply per object-shaped call, in order; each recorded entry has the tool that call names and the arguments it sends, as `RepairMeans` has it; the registry was invoked once, in order, for each entry with recovered arguments and for no other, and its results are what the model was told; an exception leaves the loop if and only if some turn held a call that cannot be read |
| ToolLoop.CallsAreAnswered | src/personal_world/chat.py:163-213 | calls add one reply per object-shaped call, in order, under its id, and one entry with the tool it names and the arguments it sends: an object as it is, nothing or blank text as the empty object, text that reads as an object as that object, and text that reads as anything else not at all |
| ToolLoop.RepairMeans | src/personal_world/chat.py:81-110 | what sent arguments come to, without naming the function: an object, nothing, and text that reads are taken or refused unrepaired; only text that does not read, or a value of another kind, goes to the lenient reader and is marked as repaired |
| ToolLoop.ReadMeans | src/personal_world/chat.py:170-178 | the calls taken are those before the first whose `function` is true and not an object |
| ToolLoop.LoopFollowsProvider | src/personal_world/chat.py:113-231 | the provider is shown the given messages, then after each answer with calls that turn and the replies to it; the first other answer, if it comes within the rounds, is the ending, with its own status and text; the model is the last one named |
| ToolLoop.OnlyObjectsReachTheRegistry | src/personal_world/chat.py:81-110 | whatever arguments a model sends, the registry is only invoked with an object |
| ToolLoop.LimitFindings | src/personal_world/chat.py:59-78 | the limit reply carries the first six findings at most, each a bounded excerpt of the result at its place |
| JournalLog.Journal.Append | src/personal_world/journal.py:19-22 | an event goes to the end of the log and nothing else changes |
| JournalLog.Journal.Record | src/personal_world/journal.py:24-38 | a plain entry is appended and returned |
| JournalLog.Journal.ByTs | src/personal_world/journal.py:52-66 | the entry with that time, if there is one |
| JournalLog.Journal.Supersede | src/personal_world/journal.py:68-123 | a correction and its audit row are appended, or it is refused and nothing is written |
| JournalLog.Journal.CurrentEvents | src/personal_world/journal.py:125-144 | the latest n entries that nothing supersedes and whose kind is not excluded, all of them if n is zero or there are fewer: every kept entry that is left out stands earlier than every entry shown |
| JournalLog.LastNShows | src/personal_world/journal.py:125-144 | the same of the function: which entries are shown, in which order, how many, and that those left out are the earlier ones |
| JournalLog.Journal.HistoryOf | src/personal_world/journal.py:146-166 | the entries at the indices of `History`, which `HistoryIsChain` describes |
| JournalLog.SupersedingKeepsLinks | src/personal_world/journal.py:68-123 | a correction keeps keys unique, links pointing back, and one correction per entry at most |
| JournalLog.SupersedingMeans | src/personal_world/journal.py:68-123 | it is refused if and only if there is no such entry or it has been corrected, and writes nothing then; otherwise the log grows by a correction with the entry's kind, source and classification that links to it, and by its approval |
| JournalLog.RemainingMeans | src/personal_world/journal.py:125-144 | the view holds exactly the entries that are kept, each once and in log order |
| JournalLog.CurrentAppend | src/personal_world/journal.py:24-38 | a plain append puts its entry at the end of the view |
| JournalLog.CurrentSuperseding | src/personal_world/journal.py:68-144 | a successful correction takes its target out of the view, puts the corrected entry and the audit row last, and grows it by exactly one |
| JournalLog.ChainsAreLinear | src/personal_world/journal.py:125-166 | originals and current versions correspond one to one, by following the links either way; the view holds exactly the chain ends |
| JournalLog.OneCurrentPerOriginal | src/personal_world/journal.py:125-144 | the view has as many entries as there are originals, after any number of corrections |
| JournalLog.HistoryIsChain | src/personal_world/journal.py:146-166 | each element of a history is the correction of the one before it, so nothing repeats; it starts at the original if and only if there are at most a hundred predecessors, and ends with the entry itself if and only if that is current |
| JournalLog.HistoryIsFullIff | src/personal_world/journal.py:146-166 | a history is the whole chain, from original to current version, if and only if there are at most a hundred predecessors and the direct correction, if any, is current |
| JournalLog.HistoryLosesOriginal | src/personal_world/journal.py:152-161 | a concrete log of 102 versions in which the last one's history lacks the original |
| JournalLog.HistoryLacksCurrent | src/personal_world/journal.py:162-166 | a concrete log of three versions in which the first one's history lacks the current one |
| JournalLog.RunsKeepChains | src/personal_world/journal.py:24-123 | over every run of entries and corrections, nothing written is rewritten, links point back and never branch, and the view has one entry per original |
| JournalLog.JournalSupersede | src/personal_world/api.py:1144-1219 | the API act: bad requests, unknown and stale targets, a retry, or a correction with trimmed text |
| JournalLog.ActMeans | src/personal_world/api.py:1144-1219 | which of the five answers is given, in terms of the request and the log alone, and that only a correction writes |
| JournalLog.ActWrites | src/personal_world/api.py:1144-1219 | the correction has the trimmed text and reason, the approval names who drafted it, and a retry returns the correction that stands there |
| JournalLog.RetryWritesNothing | src/personal_world/api.py:1182-1196 | sending a correction that was made again, at any later time, returns the same correction and writes nothing |
| RateLimiter.Limiter.RateLimited | src/personal_world/api.py:615-628 | one ask: old times leave the window, and the ask is refused or remembered |
| RateLimiter.AtMostTwentyAMinute | src/personal_world/api.py:615-628 | over every run, any half-open window of 60 seconds holds at most 20 accepted asks of a caller |
| RateLimiter.RefusedExactly | src/personal_world/api.py:615-628 | an ask is refused if and only if exactly 20 asks of its caller were accepted less than 60 seconds before; there are never more |
| RateLimiter.WindowBounded | src/personal_world/api.py:615-628 | a pruned window is at most the limit, and counts exactly the recent accepted asks |
| Sessions.SessionStore.Create | src/personal_world/auth.py:83-93 | a new session is stored and saved, replacing none of the others |
| Sessions.SessionStore.Get | src/personal_world/auth.py:95-103 | a session used within a day is touched in memory only; an older one is dropped and the drop saved; `FoundWithinADay` and `LiveForADay` say so over runs |
| Sessions.FoundWithinADay | src/personal_world/auth.py:32-33 | over every run with a clock that does not go back, a session that is found was issued, or last found, less than 86400 seconds before |
| Sessions.LiveForADay | src/personal_world/auth.py:95-103 | conversely, with no logout, restart or new issue in between, it is found by every look-up less than 86400 seconds after it was issued or found |
| Sessions.LookUpWrites | src/personal_world/auth.py:95-103 | a plain look-up that finds its session writes nothing to disk, and one that finds none leaves the id neither in memory nor on disk |
| Sessions.SessionsAreIssued | src/personal_world/auth.py:83-93 | over every run, each session in memory or on disk belongs to the principal it was issued to, by the method it was issued with |
| Sessions.SessionStore.Invalidate | src/personal_world/auth.py:105-107 | the session is gone from memory and disk |
| Sessions.SessionStore.GrantStepUp | src/personal_world/auth.py:109-126 | elevation of a valid session of the named principal, saved; the session returned is the stored one |
| Sessions.SessionStore.Load | src/personal_world/auth.py:128-141 | a new process has fresh session objects for exactly the rows on disk |
| Sessions.SessionStore.RequestStepUp | src/personal_world/auth.py:327-368 | elevation of the stored session after a credential that belongs to its own principal |
| Sessions.SessionStore.GrantOidcStepUp | src/personal_world/auth.py:267-292 | elevation of the stored session after a recent provider sign-in of its own principal |
| Sessions.DiskKeepsUp | src/personal_world/auth.py:83-171 | over every run with a clock that does not go back, disk equals memory except that `last_active` may lag |
| Sessions.RestartOnlyForgets | src/personal_world/auth.py:128-171 | a reload makes no invalid session valid and changes no principal and no elevation |
| Sessions.ElevationHasCause | src/personal_world/auth.py:32-46 | over every run, an elevation that holds at a time was granted on that very session, to its owner, by a verification less than 300 seconds before |
| Sessions.ElevationLasts | src/personal_world/auth.py:35-46 | conversely, a verified step-up holds for 300 seconds, through restarts and for its own principal only, unless the session is gone or issued anew |
| Sessions.GoneStaysGone | src/personal_world/auth.py:95-107 | a dropped session stays gone through restarts until its id is issued again |
| Roles.AgentIsLesser | src/personal_world/roles.py:166-204 | an agent can do nothing its owner cannot, and only what an agent scope may carry |
| Roles.WhoCan | src/personal_world/roles.py:72-204 | permission by permission, who has it, by kind, role and scopes |
| Roles.ReadGrants | src/personal_world/roles.py:223-239 | the loop over the entries gives the grants that `LastGrantCounts` describes |
| Roles.LastGrantCounts | src/personal_world/roles.py:223-239 | a group has a role if and only if the last entry that grants the group anything grants it that role |
| Roles.FindRoleForGroups | src/personal_world/roles.py:212-247 | the role for a list of groups and a mapping |
| Roles.BestIsHighest | src/personal_world/roles.py:240-247 | the role found is granted to one of the groups, and no group is granted a higher one |
| Roles.GroupsNeverOwn | src/personal_world/roles.py:212-247 | no group and no mapping makes an owner |
| Roles.EntryRoleIff | src/personal_world/roles.py:223-239 | an entry grants a group a role if and only if it is a group's name, an equals sign and the role's name, white space aside, and the role is not owner |
| Roles.RoleForGroupsMeans | src/personal_world/roles.py:212-247 | for entries joined by commas, the role is one that the last entry for one of the groups gives it, and no group has a higher one; there is none if no group has any |
| Identity.IdentityStore.CreateUser | src/personal_world/identity.py:189-215 | a record is added at the end unless the id is taken |
| Identity.IdentityStore.SetRole | src/personal_world/identity.py:290-309 | the record gets the role and loses the legacy scope; an unknown id changes nothing |
| Identity.IdentityStore.OwnerId | src/personal_world/identity.py:311-320 | the first record whose role is owner |
| Identity.IdentityStore.MigrateRoles | src/personal_world/identity.py:322-348 | every record is rewritten as migration says, and the count is the number of records that differ |
| Identity.IdentityStore.SetDisplayName | src/personal_world/identity.py:358-379 | the name is set, on a new record if there is none |
| Identity.IdentityStore.LegacyPrimary | src/personal_world/identity.py:570-593 | the primary record is healed in place, or made as the owner |
| Identity.IdentityStore.ApplyGroupRole | src/personal_world/identity.py:835-867 | the role of the person's groups is stored, never over an owner |
| Identity.IdentityStore.PeopleSetRole | src/personal_world/api.py:4812-4858 | the people route: every refusal with its status, or the role is set; `Authority.RoleRouteIff` says which, for whom |
| Identity.IdentityStore.PeopleTransferOwnership | src/personal_world/api.py:4859-4903 | the transfer route: every refusal with its status, or owner and admin change places; `Authority.TransferRouteIff` says which, for whom |
| Authority.RoleRouteIff | src/personal_world/api.py:4812-4858 | the role route answers 200 if and only if the caller is no agent and is owner or admin, or a member person with the legacy scope, the role is one of the four besides owner, and the target has a record and is neither the first owner nor the caller; only then the store changes, by that role and that scope |
| Authority.TransferRouteIff | src/personal_world/api.py:4859-4903 | the transfer route answers 200 if and only if the caller is the owner and no agent and the target is somebody else with a record that reads as admin; only then the store changes, in the two records |
| Authority.WhatRecordsSay | src/personal_world/identity.py:78-92 | the role a record reads as |
| Authority.GroupSignInIff | src/personal_world/identity.py:835-867 | a group sign-in writes a role if and only if the caller is a person with a record that is not an owner's and the groups have one |
| Authority.NameSetMeans | src/personal_world/identity.py:358-379 | a name changes one record's name, or makes one record without credentials, as owner if and only if it is the primary person's |
| Authority.PrimaryIsEnsured | src/personal_world/identity.py:570-593 | afterwards the primary person has a record with a credential and a role; credentials and a role that were there stay, and no other record changes |
| Identity.AlwaysOneOwner | src/personal_world/identity.py:290-379 | from a store with a primary record, unique ids and one owner, every run of record writes, whoever asks for what, keeps exactly one owner |
| Identity.TransferKeepsSound | src/personal_world/api.py:4859-4903 | a transfer leaves exactly one owner, whatever the request |
| Identity.BootKeepsOneOwnerIff | src/personal_world/identity.py:570-593 | making sure of the primary person keeps one owner if and only if there is a primary record |
| Identity.RenameKeepsOneOwnerIff | src/personal_world/identity.py:358-379 | a name upsert keeps one owner if and only if it is not for a primary person without a record |
| Identity.SecondOwner | src/personal_world/identity.py:570-593 | a concrete store with one admin: a bootstrap owner without a record transfers to that admin, there is one owner, and making sure of the primary person makes a second |
| Identity.MigrateIdempotent | src/personal_world/identity.py:322-348 | a second migration changes nothing, and every record then states its role |
| Identity.MigrateMeans | src/personal_world/identity.py:78-92 | migration changes a person's role only from stored member with the legacy scope to admin |
| Identity.WrittenRoleStays | src/personal_world/identity.py:290-348 | a role that was set survives any number of migrations, boots, renames, writes to others and transfers that neither take from nor give to its person, whatever scope the record carried |
| Identity.OthersLeaveRole | src/personal_world/api.py:4812-4903 | where there is one owner, a role other than owner survives every run of requests that do not name its person |
| CrewIds.SafeIdIsSlugOrBroken | src/personal_world/crew.py:241-247 | the check accepts exactly slugs of at most 64 characters, and such slugs with a line break behind them |
| CrewIds.BrokenIdIsSafe | src/personal_world/crew.py:241-247 | a concrete unsafe id that is called safe |
| CrewIds.SlugifyIsSlug | src/personal_world/crew.py:250-257 | every name gives nothing or a proper id without a dash at either end |
| CrewIds.SlugMeans | src/personal_world/crew.py:250-257 | the slug is the first 64 characters of the lower-cased name's stretches of letters and digits, joined by dashes, without dashes at the end |
| CrewIds.CandidateInjective | src/personal_world/crew.py:260-269 | different suffixes give different candidates, however much of the base is cut away |
| CrewIds.UniqueId | src/personal_world/crew.py:260-269 | the loop terminates with the first candidate that is not taken, within two more than the roster's size |
| CrewIds.UniqueIdIsSlug | src/personal_world/crew.py:260-269 | from an empty or proper base the new id is a proper id, not in the roster |
| CrewIds.IdMeans | src/personal_world/crew.py:260-269 | the id is the base, or the base cut to leave room in 64 characters for a dash and a number, with the first number from two on that is not taken; without a base it is `companion` |
| CrewIds.TriesBound | src/personal_world/crew.py:260-269 | the last of those tries is needed if and only if the roster is exactly the base's own candidates from the second on, and the base is among them |
| CrewIds.ExtraTryIff | src/personal_world/crew.py:260-269 | some roster needs it if and only if the base ends in a suffix of its own |
| CrewIds.ExtraTry | src/personal_world/crew.py:260-269 | a concrete slug of 64 characters whose roster of one needs the third candidate |
| Crew.CrewState.Add | src/personal_world/crew.py:436-452 | one entry with a fresh id goes to the end |
| Crew.CrewState.ClearKeepersFor | src/personal_world/crew.py:455-463 | exactly the rooms the companion kept are cleared, and reported in order |
| Crew.CrewState.Remove | src/personal_world/crew.py:466-479 | the entry with that id, unless it is a starter's, is removed and returned and its rooms cleared and reported, or nothing changes |
| Crew.ReadWrite | src/personal_world/crew.py:305-423 | reading what was written gives a sound state back unchanged, whatever rooms are configured |
| Crew.RemovedSound | src/personal_world/crew.py:455-479 | removal leaves every other companion as it was and clears exactly the rooms that companion kept |
| Crew.HandledSound | src/personal_world/api.py:3323-3560 | every request that is accepted leaves distinct ids, texts in shape and no keeper outside the roster |
| CrewRequests.AddedIff | src/personal_world/api.py:3323-3340 | a companion is added if and only if the body names one and its fields are in shape; it has the given texts, trimmed, no portrait, and a fresh id made of its name, goes last, and nothing else changes |
| CrewRequests.PatchIff | src/personal_world/api.py:3341-3372 | a patch goes through if and only if the companion is there and what the body names is in shape; exactly those fields of that companion change |
| CrewRequests.DeleteIff | src/personal_world/api.py:3373-3400 | a companion is deleted if and only if it is there and no starter; it leaves the roster and the rooms it kept, and nothing else changes |
| CrewRequests.KeeperIff | src/personal_world/api.py:3402-3435 | a keeper is chosen, or the room left without, if and only if the room is configured and the companion is of the roster; no other room changes |
| CrewRequests.KeeperShown | src/personal_world/api.py:3402-3435 | the room then shows that companion, by name and portrait, and every other room what it showed |
| CrewRequests.DoorwayIff | src/personal_world/api.py:3437-3469 | a doorway is chosen if and only if the room is configured and it is one of the thirteen, written out |
| CrewRequests.UploadIff | src/personal_world/api.py:3470-3518 | a portrait is stored for a companion of the roster only, and its route is written down |
| CrewRequests.DropIff | src/personal_world/api.py:3547-3573 | an uploaded portrait is dropped if and only if there is one; a starter shows the one it came with, any other none |
| CrewRequests.ReadMeans | src/personal_world/crew.py:305-409 | what any stored object reads as: the listed companions that are in shape, in order, the keepers among them, the doorways there are, and residents only if no keepers are stored |
| CrewRequests.FirstVisit | src/personal_world/crew.py:314-327 | without a file that can be read, the crew is the starters, each resident at home in the configured rooms |
| Crew.EveryCrewSound | src/personal_world/api.py:3323-3560 | over every run of requests from a first visit, the crew read is sound and what the last request stored reads back as it left it |
| Crew.ChosenKeeperIsShown | src/personal_world/crew.py:482-498 | a room shows a keeper if and only if one was chosen, under that companion's present name |
| LoreSync.World.MakePlan | src/personal_world/lore_sync.py:46-78 | the report: source, revision, the new and changed keys in document order, the gone keys, and the six counts; nothing is changed |
| LoreSync.World.Apply | src/personal_world/lore_sync.py:81-95 | the planned keys are stored or marked, and the plan is reported |
| LoreSync.World.Confirm | src/personal_world/lore_sync.py:98-111 | exactly the named keys become confirmed, and those that were not are reported once each, in order |
| SyncResults.PlanMeans | src/personal_world/lore_sync.py:38-78 | the report by the document's items: which keys are new, reworded and gone, the first two in the order in which the document first has them, and the named source, revision and skipped part |
| SyncResults.CountsMean | src/personal_world/lore_sync.py:64-75 | each of the six counts is the number of keys of its kind; what waits is what the source accepted and is not confirmed |
| SyncResults.CarriedLore | src/personal_world/lore_sync.py:81-91 | for a key the document carries, its last item counts: confirmed lore and lore with the same six fields stays, anything else is stored as suggested with those fields and where it came from |
| SyncResults.UncarriedLore | src/personal_world/lore_sync.py:66-95 | for a key it does not carry, nothing is made, and lore of this source that is neither confirmed nor marked gets the mark and keeps all else |
| SyncResults.ConfirmMeans | src/personal_world/lore_sync.py:98-111 | confirming changes only the state, of the named keys, and reports each promoted key once, in the order first named |
| LoreSync.CountsAddUp | src/personal_world/lore_sync.py:50-75 | every incoming key is counted once, as new, changed, unchanged or kept |
| LoreSync.ApplyChangesWhatIsPlanned | src/personal_world/lore_sync.py:46-95 | a key's lore changes if and only if the plan lists it; nothing is deleted and confirmed lore is not touched |
| LoreSync.ApplyIdempotent | src/personal_world/lore_sync.py:46-95 | after a sync the same document plans nothing, and syncing it again changes nothing |
| LoreSync.CommuteIffApart | src/personal_world/lore_sync.py:34-95 | syncs from two sources commute for all documents and worlds if and only if neither name with its colon begins the other |
| LoreSync.ColonFreeApart | src/personal_world/lore_sync.py:34-35 | distinct names without colons are such a pair |
| LoreSync.OverlapDoesNotCommute | src/personal_world/lore_sync.py:66-70 | concrete documents of overlapping sources whose order matters |
| LoreSync.ConfirmedForGood | src/personal_world/lore_sync.py:81-111 | confirmed lore stays word for word through every run of syncs and confirmations |
| BriefingPool.RoomNeedItems | src/personal_world/briefing.py:305-321 | a room's needs as items, skipping what is not an object but counting it |
| BriefingPool.RowsBySystem | src/personal_world/briefing.py:862-869 | the first row that names a system stands for it |
| BriefingPool.Dedupe | src/personal_world/briefing.py:886-893 | the loop with its seen set |
| BriefingPool.PoolHaveTos | src/personal_world/briefing.py:861-895 | the pool from systems and rooms: overridden, joined, deduplicated and sorted twice |
| BriefingPool.StableSortOrders | src/personal_world/briefing.py:135-142 | a stable sort of an ordered list orders it by the sort key and then as before, and holds the same items |
| BriefingPool.PooledExactly | src/personal_world/briefing.py:880-896 | a list is the pool if and only if it holds exactly the items that came first under their id, by rank, nine for none, then dated newest first, then as contributed |
| BriefingPool.PooledIds | src/personal_world/briefing.py:886-898 | ids in the pool are pairwise distinct and are exactly the contributed ones, so the total counts each once |
| BriefingPool.MatchedRoomCountsOnce | src/personal_world/briefing.py:877-885 | a room that took over a system adds nothing to the pool by its own row |
| BriefingPool.NeedListedIff | src/personal_world/briefing.py:877-893 | a room's need is listed if and only if nothing else was contributed under its id before it |
| Contributions.OwnItemListedIff | src/personal_world/briefing.py:861-893 | an item of a system that no room names is in the pool if and only if nothing else was contributed under its id before it |
| Contributions.ContributedMeans | src/personal_world/briefing.py:861-885 | what is contributed, part by part: for each system its own items if no room names it and else the needs of the first room that does, newest first; then each room's needs, under the system it names or its own id |
| Contributions.NeedMeans | src/personal_world/briefing.py:305-321 | the item of a need: its id or its place in the list under the system, its date, rank 1, its title and reason trimmed and cut |
| BriefingPool.SecondRoomsNeedIsLost | src/personal_world/briefing.py:305-321 | two rooms of one system whose needs have no ids: the second room's need is not listed |
| Learning.LearningMemory.Encounter | src/personal_world/learning.py:65-87 | one encounter: the stage told and the memory after it |
| Learning.LearningMemory.GotIt | src/personal_world/learning.py:90-95 | one "Got it": counted for a concept that was met, nothing otherwise |
| Learning.LearningMemory.SetMode | src/personal_world/api.py:5618-5632 | the chosen mode is kept and nothing else changes |
| Learning.OffersAreFew | src/personal_world/learning.py:57-87 | over every run, a concept is "first" at most once and "again" at most twice, and never "again" without "first" |
| Learning.FamiliarExactly | src/personal_world/learning.py:57-95 | a concept is familiar if and only if the run offered it three times or said "Got it" twice after meeting it |
| Learning.ToldExactly | src/personal_world/learning.py:57-87 | what an encounter is told, by the offers and confirmations before it, the mode last chosen and the day: familiar, off, again or first |
| Learning.EntryTells | src/personal_world/learning.py:65-87 | an entry keeps the project, the first 120 characters of the context and the day of the first encounter, and the day of the last |
| Learning.ProjectsMean | src/personal_world/learning.py:78-80 | an encounter puts its project behind the others unless it is listed; of twenty others the oldest goes |
| Learning.FamiliarForGood | src/personal_world/learning.py:57-77 | once familiar, a concept is told familiar at every later encounter, in every mode |
| Learning.AgainQuotesFirstMeeting | src/personal_world/learning.py:65-87 | "again" quotes the project and the shortened context of the run's very first encounter with the concept |
| Learning.OccasionalIsOncePerDay | src/personal_world/learning.py:70-84 | with days that do not run back, occasional mode offers an unfamiliar concept if and only if nothing was offered earlier that day |
| Learning.EntriesStayTidy | src/personal_world/learning.py:78-84 | entries list at most twenty projects, none twice, always the one just used, and keep a context of at most 120 characters |
| JournalGate.SharesLongRun | src/personal_world/journal_gate.py:204-220 | true if and only if the candidate has that many consecutive words in common with some text |
| JournalGate.ClosedSharesNothing | src/personal_world/journal_gate.py:204-220 | no word the schema admits shares five words with any text |
| JournalGate.Validate | src/personal_world/journal_gate.py:223-231 | the answer is closed, and is the schema's answer or "unsure", whatever the entries say |
| JournalGate.SchemaIff | src/personal_world/journal_gate.py:54-63 | a reply fits the schema if and only if it is an object with these four parts and no other, each one of its own words, written out |
| JournalGate.DeniedIff | src/personal_world/journal_gate.py:265-269 | an ask is denied if and only if its caller is listed or a listed topic that is not empty stands in its topic, in lower case |
| JournalGate.Gate | src/personal_world/journal_gate.py:265-293 | only closed answers come out; a malformed or denied ask is answered the same whatever the journal holds and the model says; the gate raises if and only if the model it asks does |
| JournalGate.RealModelRaisesIff | src/personal_world/journal_gate.py:150-201 | asked about something, and the request going through, the network model raises if and only if a part of the reply on the way to its text is of the wrong kind |
| JournalGate.ModelSays | src/personal_world/journal_gate.py:191-199 | a reply of the usual shape is read from its first choice's text |
| JournalGate.TextMeans | src/personal_world/journal_gate.py:195-201 | from that text the stretch from the first brace to the last is parsed, and what does not parse is unsure |
| JournalGate.NullContentRaises | src/personal_world/journal_gate.py:195-201 | a concrete reply, its content null, on which it raises |

## Left out

- HTTP routing, cookies, headers, OIDC discovery, subprocesses, language-model providers, rooms and media: input and output with unseen peers; their answers are parameters.
- JSON and literal parsing and printing inside the libraries: arbitrary functions in `LenientCalls.Parser`.
- Lower-casing and the fold from a room's name to a system: function parameters (`Crew.Setting`, `BriefingPool.Names`, `JournalGate`), with only what a theorem needs assumed of them.
- The starter companions and which room each is at home in: parameters of `Crew`.
- Random session ids, tokens and fingerprints: session ids are inputs of `Sessions`, tokens are opaque texts; the owner of a credential is the `resolved` input.
- Crashes between writes and files that cannot be read: a save is one step; only the crew's unreadable file is modelled, since the code seeds from it.
- Clock readings: inputs of each call; real numbers stand for floating-point seconds, and one day or time is read per call.
- Lone surrogates and other limits of Python strings; inputs that are not texts where the code expects texts.
- The wording of warnings: `ToolLoop.InvalidArgs` keeps the tool it names.
- The `naive` counter of `src/personal_world/chat_registry.py:68` is never read.
- MakePlan: reports the gone keys as a set, since the world's lore is a map without an order here.
- Dict equality across number types and lore values that are not objects.
- `accepted_keys`, and the promotion rule inside `World.promote_lore`: `world.py` is not part of this model; adding suggested lore stores it.
- Agents, viewers, invites and single-mode sign-in, except as writers of person records; per-person helper grants.
- Portrait bytes and the initial shown for a companion.
- Retrieval, the time window and the mock model behind the journal gate: `retrieve` and `model` are parameters.
- RealModel: takes the request as gone through or failed with an error that is caught; other errors inside the network library are not modelled.
- The other pools of the briefing, greetings, moods and voice lines, and static tables: they would only add easy members.
- UniqueIdIsSlug: assumes a roster whose size has at most 54 digits, since a longer suffix would leave no room for the base.
- EveryCrewSound: assumes the same of the starters and requests together, and that no configured room has an empty id.
- HistoryOf: for entries of this journal; what it gives for an entry of another is not modelled.
- AlwaysOneOwner: provisioning and invites are taken to create no owner, since no caller asks for one; making sure of the primary person is the one that does, and is included.
- Validate: assumes that lower-casing leaves the schema's own words alone.
- Gate: assumes the same.
- Learning modes other than the three the API accepts, and entries edited by hand in the file.
