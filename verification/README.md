# Wikistead: a verified model

Wikistead is a collaborative Markdown wiki. This project models the parts of it whose correctness is least
visible from reading any one function, and proves what they promise:

- **The structural Markdown engine**: nested `:::` directives (a stack resolver and a second, depth-counting
  parser), fence info strings, math spans, heading slugs and sections, section edits by offset, and the one
  tree walk that feeds an HTML sink.
- **Batched authorization**: chunked, retried, parallel questions to a store that may answer, fail or stay
  silent on any id.
- **Step protocols over shared state**: binding a deployment to a store under a lock, generation-guarded caches,
  the audit hash chain and the operator ledger, a crash-resumable grant migration, group mirroring from a stale
  mirror, and the guard against wiping a document.
- **Guarded state changes**: re-keying a sign-in connection, and the second-factor floor.

What the program updates in place is a class or a method with loops here, proved against a specification
function or predicate; what it computes is a function; a protocol is a total step function run over an arbitrary
schedule. The main results are then lemmas over every input, every run or every interleaving.

`dafny verify dfyconfig.toml` checks the whole project.

## How the pieces fit

| files | part |
|---|---|
| `Text`, `FiniteSets` | JavaScript string operations, numerals, set sizes |
| `DirectiveSyntax`, `DirectiveNesting`, `DirectiveResolver`, `DirectiveLaws`, `DirectiveAttrs` | directives |
| `LayoutItems`, `LayoutLaws` | the second parser of the same language, and its agreement with the first |
| `FenceInfo`, `FenceLaws` | fence info strings: tokenizer, parser, printer |
| `MathSpans`, `MathSpanLaws` | `$...$` and `$$...$$` |
| `BodyEdit`, `BodyEditLaws` | section edits |
| `Headings` | slugs and sections |
| `MdSink`, `MdVisitor`, `MdWalker`, `MdFootnotes`, `MdLaws` | the tree walk and the HTML sink |
| `FilterAuthorized`, `FilterAuthorizedLaws`, `FilterAuthorizedLanes` | batched authorization |
| `StoreBinding`, `StoreCreation` | the store-binding protocol |
| `OrderedCache`, `ViewerCaches`, `CacheRaces`, `CacheInvalidation` | the per-viewer caches |
| `CanonicalJson`, `AuditChain`, `AuditLaws`, `OperatorLedger` | the audit chain and the ledger |
| `LeafMigration`, `LeafMigrationLaws`, `LeafMigrationRuns` | the grant migration |
| `GroupSync`, `GroupDirectory` | group mirroring |
| `YdocStore` | saving a collaborative document |
| `ConnectionRekey`, `FactorFloor` | guarded changes |

## What the code does not promise

Some properties the documentation suggests are not true of the code. Each has the exact condition under which
the code does meet it, and, where one input tells it best, a lemma with that input:

- Attributes printed and parsed again are the same exactly when no value holds a double quote and no key is
  `__proto__`, whose assignment on a plain object stores nothing; inside an opening fence also when no value holds
  a closing brace, and in a document when none holds a line break (`DirectiveAttrs.AttrsRoundTrip`,
  `DirectiveAttrs.FenceRoundTrip`, `DirectiveAttrs.FenceInDocument`, `DirectiveAttrs.QuoteAndProtoAreLost`).
- The two directive parsers agree on the top level exactly when every top-level directive has the wanted name
  (`LayoutLaws.SameTopLevel`, `LayoutLaws.NestedTabIsTopLevel`).
- The guard against wiping a document reads the row and then updates it without locking it. An empty state that
  is stored loses nothing exactly when nothing unseen was committed in between, or out of the read's sight and in
  the update's; one policy is for both (infra/db/migrations/002_spaces_pages.sql:47-48), so that is a row inserted
  or brought under the tenant between them (`YdocStore.EmptyStoreLosesNothingExactly`, `YdocStore.CommitInBetweenCanBeLost`,
  `YdocStore.HiddenReadCanLose`). Other writers of the row are apps/server/src/routes/revisions.ts:263,
  apps/server/src/import/index.ts:359 and further collaboration servers. An update is in the row exactly when
  stored was reported or its acknowledgement was lost (`YdocStore.LandsExactly`).
- A boot can report a store as lost that still exists: when it is not pinned, no store has the product's name,
  and the bound store was adopted through a pin (`StoreBinding.LostReportIsFalseExactly`,
  `StoreBinding.LostReportCanBeFalse`).
- The lock bounds the stores created under it by one; a boot whose database session dies on its way to the
  creation may still create another, one for each such loss (`StoreBinding.EveryBootBindsOneStore`,
  `StoreBinding.LostSessionCanMakeTwo`). From any moment on, without a further loss, a second store can still come
  about exactly when those made, those under way and the one still to be made come to two
  (`StoreCreation.StoresToComeExactly`).
- The tree cache joins its key with blanks. Two viewers share a key exactly when one of them has a blank in a part
  (`CacheInvalidation.TreeKeyClashesExactly`) and then one is served the other's verdicts
  (`CacheInvalidation.SharedKeyIsServedExactly`, `CacheRaces.SpacedSubjectIsServedAnothersVerdicts`) or adds to them
  (`CacheInvalidation.SpacedSubjectExtendsAnothersVerdicts`), were the
  authorization store ever to answer for such a subject. It takes no id with a blank
  (apps/server/src/auth/group-sync.ts:8-10 says so of groups, and a subject is sent as the id `user:` and itself),
  so its refusal, not the key, is what keeps viewers apart; `CacheRaces.NothingStaleIsServed` asks only that.
- The tree cache is stale-free because the application fires both invalidators in one step. The tree's may fire
  alone exactly when nothing computed for the tenant waits to be served or stored
  (`CacheInvalidation.LoneInvalidatorIsSafeExactly`, `CacheRaces.UnpairedInvalidationServesStale`).
- The grant migration does not compare conditions: a grant keeps its own exactly when no leaf with another
  condition was there before (`LeafMigrationRuns.EveryGrantStands`, `LeafMigrationRuns.ConditionCanBeReplaced`).
- The underscore that ends a minted prefix is a wildcard in the re-key's query, and the check is not locked against
  sign-ins; everyone is carried over exactly when no two members it matches share what follows and no sign-in takes
  a carrier's place after the check (`ConnectionRekey.Tenant.ApplySupersession`,
  `ConnectionRekey.UnderscoreMatchesAnything`).
- The second-factor floor holds in every run whose requests arrive at one host and run one after another. Over
  several hosts it holds at a host exactly when every request that goes through would have been let through there
  too (`FactorFloor.FloorOverHostsExactly`, `FactorFloor.TwoHostsCanBreakTheFloor`). The checks and the writes share
  no lock; when they overlap, stance changes and removals alike, it holds exactly when every write comes while its
  own guard would still pass (`FactorFloor.FloorOverOverlapsExactly`, `FactorFloor.OverlappingStepsExactly`,
  `FactorFloor.OverlappingRemovalsCanBreakTheFloor`, `FactorFloor.StanceOverRemovalCanBreakTheFloor`).
- An entry whose record is re-linked, or deleted, at the end of the audit chain verifies; only a trusted tail
  hash finds it (`AuditLaws.RelinkedAlterationIsFoundNext`, `AuditLaws.DeletionIsFound`,
  `AuditLaws.TailHashDeterminesChain`).

## Model

| member | source | states |
|---|---|---|
| `DirectiveSyntax.ParseDirectiveAttrs` | packages/macro-render/src/directive-parser.ts:30-38 | the matching loop yields the attributes found left to right, a repeated key overwriting in its place and the prototype's name storing nothing; no result exactly when nothing matches |
| `DirectiveSyntax.OpenIsNeverBare` | packages/macro-render/src/directive-parser.ts:47-62 | no line both opens and closes a directive |
| `DirectiveSyntax.CloseIsBare` | packages/macro-render/src/directive-parser.ts:59-90 | the two parsers' tests for a closing line accept the same lines |
| `DirectiveAttrs.AttrsRoundTrip` | packages/macro-render/src/directive-parser.ts:30-45 | for every record, parsing printed attributes gives them back without the double quotes in values and without the key `__proto__`, so the same ones exactly when there are none of either |
| `DirectiveAttrs.QuoteAndProtoAreLost` | packages/macro-render/src/directive-parser.ts:30-45 | two records that do not come back, one for each reason |
| `DirectiveAttrs.FenceRoundTrip` | packages/macro-render/src/directive-parser.ts:41-56 | parsed as one opening line, colons, name and printed attributes give back the name, and the same attributes exactly when no value has a quote or a closing brace and no key is `__proto__` |
| `DirectiveAttrs.FenceInDocument` | packages/macro-render/src/directive-parser.ts:41-56 | parsed line by line at the head of a document, under the same conditions and exactly when also no value holds a line break |
| `DirectiveAttrs.OpeningComesFromLine` | packages/macro-render/src/directive-parser.ts:47-56 | attributes read from a line hold no character the line has not |
| `DirectiveAttrs.ValuesComeFromText` | packages/macro-render/src/directive-parser.ts:30-38 | parsing invents no character: one absent from the text is absent from every key and value |
| `DirectiveResolver.ResolveDirectiveRanges` | packages/macro-render/src/directive-parser.ts:92-119 | the one-pass stack resolver returns, in document order, for each opening line the range up to the first later line that brings the nesting depth back |
| `DirectiveResolver.RangesFromSpec` | packages/macro-render/src/directive-parser.ts:92-119 | there is exactly one range for each opening line, and starts strictly ascend |
| `DirectiveNesting.CloseLineCloses` | packages/macro-render/src/directive-parser.ts:96-116 | the line a directive ends at is a closing line, at one level deeper, and after it the depth is the opening's again |
| `DirectiveNesting.OpenLinesAreStillOpen` | packages/macro-render/src/directive-parser.ts:96-116 | the stack holds at each height the opening line of that depth that is still open |
| `DirectiveNesting.StillOpenIsOnStack` | packages/macro-render/src/directive-parser.ts:96-116 | every opening still open is on the stack, at its own depth |
| `DirectiveNesting.ClosesInnermost` | packages/macro-render/src/directive-parser.ts:104-112 | a closing line ends exactly the innermost directive still open |
| `DirectiveLaws.RangesAreLaminar` | packages/macro-render/src/directive-parser.ts:92-119 | of any two ranges the later is apart from the earlier or lies inside its body |
| `DirectiveLaws.LaterOpening` | packages/macro-render/src/directive-parser.ts:92-119 | a later opening is inside an earlier directive and deeper, or starts after it has ended, by whether the earlier one is still open |
| `DirectiveLaws.DepthCountsEnclosing` | packages/macro-render/src/directive-parser.ts:92-119 | the reported depth is the number of ranges that enclose this one |
| `DirectiveLaws.UnclosedIsOpenAtEnd` | packages/macro-render/src/directive-parser.ts:113-118 | a range is reported unclosed exactly when it is still on the stack at the end of the text |
| `DirectiveLaws.RangeDelimits` | packages/macro-render/src/directive-parser.ts:92-119 | for every text and opening line, offsets are in order and in bounds; the first line is the opening fence parsed; a closed body is followed by a bare colon line on its own line, an unclosed one runs to the end |
| `DirectiveLaws.GrammarFollowsProfile` | packages/macro-render/src/directive-parser.ts:92-119 | the recursive grammar of blocks consumes exactly the lines the depth counting says, at every depth |
| `DirectiveLaws.ResolverIsGrammar` | packages/macro-render/src/directive-parser.ts:92-119 | for every text the ranges are, one for one and in order, the directives of the recursive-grammar parse |
| `LayoutItems.ParseLayoutItems` | packages/macro-render/src/directives.ts:19-48 | the second, depth-counting parser returns one item for each top-level directive of the name, content and label trimmed as described |
| `LayoutItems.OnlyLastIsOpen` | packages/macro-render/src/directives.ts:19-48 | only the last top-level item can still be open, and is exactly when the depth is not back to zero |
| `LayoutLaws.ContentIsSlice` | packages/macro-render/src/directives.ts:36-47 | a non-empty content is the slice of the body at its reported offset |
| `LayoutLaws.SameTopLevel` | packages/macro-render/src/directives.ts:19-48 | the two parsers see the same top-level openings exactly when every top-level directive has the wanted name |
| `LayoutLaws.NestedTabIsTopLevel` | packages/macro-render/src/directives.ts:19-48 | a body on which they disagree: a tab inside a card, asked for tabs |
| `LayoutLaws.ItemsAreTopRanges` | packages/macro-render/src/directives.ts:19-48 | then the items are, one for one, the depth-0 ranges of the resolver, newline-trimmed |
| `FenceInfo.Tokenize` | packages/macro-render/src/fence-info.ts:26-50 | the index loops split a string into exactly the quote- and brace-aware tokens of the recursive description |
| `FenceInfo.ParseRanges` | packages/macro-render/src/fence-info.ts:53-65 | the loop accepts exactly well-formed range lists and returns them in order |
| `FenceInfo.ParseFenceInfo` | packages/macro-render/src/fence-info.ts:78-104 | the token loop computes the parse described by applying each token in turn |
| `FenceLaws.TokenizeInvertsJoin` | packages/macro-render/src/fence-info.ts:26-50 | closed tokens joined by spaces are split back into themselves, quotes and braces included |
| `FenceLaws.RangesInvert` | packages/macro-render/src/fence-info.ts:53-72 | a printed list of ordered ranges parses to itself |
| `FenceLaws.ParsedIsWellFormed` | packages/macro-render/src/fence-info.ts:78-104 | every parse has the shape the printer assumes |
| `FenceLaws.PlainTitleIsClosed` | packages/macro-render/src/fence-info.ts:112-126 | a title without a double quote prints as one closed token |
| `FenceLaws.RoundTrip` | packages/macro-render/src/fence-info.ts:78-126 | parsing the print of any canonical description gives it back |
| `FenceLaws.CenterIsDropped` | packages/macro-render/src/fence-info.ts:112-126 | centring is never printed, so it does not survive |
| `MathSpans.FindMathSpans` | packages/macro-render/src/math.ts:18-53 | the two index loops and the sort compute the spans of the recursive description |
| `MathSpans.FindBlocks` | packages/macro-render/src/math.ts:21-33 | the first pass finds the block formulas, left to right |
| `MathSpans.FindInlines` | packages/macro-render/src/math.ts:34-51 | the second pass finds the inline ones under its guards, clear of the blocks |
| `MathSpanLaws.SpansAreWellPlaced` | packages/macro-render/src/math.ts:18-53 | spans are in bounds, sorted, disjoint, with non-empty TeX, and each meets its delimiters' guards |
| `MathSpanLaws.NoBlockIsMissed` | packages/macro-render/src/math.ts:21-33 | two block marks with something between are covered by a span, unless consumed by an empty pair before |
| `MathSpanLaws.NoInlineIsMissed` | packages/macro-render/src/math.ts:34-51 | a place where an inline formula could be read lies in a span, unless inside an earlier formula's scan |
| `MathSpanLaws.SplitRebuildsText` | packages/macro-render/src/md-visitor.ts:154-164 | the prose pieces and the formulas' sources put together are the text, every character once |
| `MathSpanLaws.EmitProse` | packages/macro-render/src/md-visitor.ts:154-164 | the loop emits exactly that split |
| `BodyEdit.ScanHeadings` | apps/collab/src/mcp-edit-apply.ts:72-81 | the line loop finds the headings at column 0 with their offsets |
| `BodyEdit.PlanBodyEdit` | apps/collab/src/mcp-edit-apply.ts:87-114 | the plan for each operation, and the refusal when a heading is missing |
| `BodyEditLaws.ScanConcat` | apps/collab/src/mcp-edit-apply.ts:72-81 | headings of two texts joined by a newline are the first's, then the second's shifted |
| `BodyEditLaws.HitStartsLine` | apps/collab/src/mcp-edit-apply.ts:72-81 | every heading found starts a line |
| `BodyEditLaws.ReplaceKeepsHeadings` | apps/collab/src/mcp-edit-apply.ts:96-114 | after a section replacement the headings are those before the section, then the insert's, then those after, each shifted by what changed |
| `BodyEditLaws.ReplaceKeepsRest` | apps/collab/src/mcp-edit-apply.ts:96-114 | exactly the section is deleted, and all text before and after it is untouched |
| `BodyEditLaws.ReplaceIsIdempotent` | apps/collab/src/mcp-edit-apply.ts:96-114 | replacing twice is replacing once when the content keeps the heading at its level and its other headings are deeper |
| `Headings.BaseIsClean` | packages/macro-render/src/headings.ts:15-21 | a slug's base is never empty, has no whitespace, no edge dash and no double dash |
| `Headings.Slugify` | packages/macro-render/src/headings.ts:14-27 | the loop ends for every finite set of slugs taken, with the base or the least free number from 2 |
| `Headings.SlugIsUnique` | packages/macro-render/src/headings.ts:14-27 | there is one such slug |
| `Headings.ExtractHeadings` | packages/macro-render/src/headings.ts:46-62 | each heading has its node's level, text and end, its line's start, and the slug left by those before it |
| `Headings.SlugsAreDistinct` | packages/macro-render/src/headings.ts:46-62 | no two headings of a document share a slug |
| `Headings.EarlierHeadingsAreStable` | packages/macro-render/src/headings.ts:46-62 | text and headings added after a document's last heading change no earlier heading |
| `Headings.SliceSectionBySlug` | packages/macro-render/src/headings.ts:68-78 | nothing for an unknown slug; else the text from that heading's line to the next heading of its level or higher, right-trimmed |
| `Headings.SectionsNest` | packages/macro-render/src/headings.ts:68-78 | a later section lies wholly inside an earlier one or wholly after it |
| `Headings.SectionInText` | packages/macro-render/src/headings.ts:68-78 | a section never ends before it starts nor past the text |
| `MdSink.EscapedIsInert` | packages/macro-render/src/safe-html.ts:28-35 | escaped text holds no angle bracket and no quote |
| `MdSink.HtmlSink.OpenRole` | packages/macro-render/src/render.ts:75-99 | opening pushes one frame with the role's prefix and suffix |
| `MdSink.HtmlSink.CloseRole` | packages/macro-render/src/render.ts:101-104 | closing folds the top frame, wrapped, into the one below |
| `MdSink.HtmlSink.PutPiece` | packages/macro-render/src/render.ts:106-139 | text, a leaf or a gap is appended to the top frame only, the gap only in a block container |
| `MdSink.EventsAreBracketed` | packages/macro-render/src/md-visitor.ts:44-75 | the calls for any nested content close exactly what they open, whatever is open around them |
| `MdSink.TookAppend` | packages/macro-render/src/render.ts:60-104 | a stack that takes in two runs of content gains their joint nested rendering |
| `MdSink.TookBox` | packages/macro-render/src/render.ts:75-104 | open, content, close leaves the stack as it was but for the box's nested rendering |
| `MdWalker.MdWalker.EmitTextLines` | packages/macro-render/src/md-visitor.ts:177-191 | line breaks are held back until something follows and continued lines lose their leading blanks |
| `MdWalker.MdWalker.FlushTo` | packages/macro-render/src/md-visitor.ts:218-231 | the source up to a position is emitted once, formulas apart |
| `MdWalker.MdWalker.WalkInlineChildren` | packages/macro-render/src/md-visitor.ts:193-239 | the sibling loop, with its position, trimming and pending break, feeds the sink the described inline content |
| `MdWalker.MdWalker.WalkInlineNode` | packages/macro-render/src/md-visitor.ts:241-279 | a pending break comes out before a node, and each kind of node becomes its box or leaf |
| `MdWalker.MdWalker.WalkTable` | packages/macro-render/src/md-visitor.ts:310-332 | the row loop with its open-body flag yields each header row in a head of its own and each run of rows in one body, in order |
| `MdWalker.MdWalker.WalkBlock` | packages/macro-render/src/md-visitor.ts:281-356 | each block feeds the sink its described content and says how far it consumes |
| `MdWalker.MdWalker.WalkBlockChildren` | packages/macro-render/src/md-visitor.ts:358-369 | siblings inside a consumed range are dropped and the others are set apart by gaps |
| `MdWalker.SectionsUnfold` | packages/macro-render/src/md-visitor.ts:313-329 | what remains of a table after one row, for either state of the open body |
| `MdFootnotes.CollectFootnotes` | packages/macro-render/src/md-visitor.ts:119-143 | definitions are the first of each label, in document order; numbers are 1, 2, 3 in order of first reference for exactly the labels referenced and defined; the rest is in order of definition |
| `MdFootnotes.FootnotesAreUnique` | packages/macro-render/src/md-visitor.ts:119-143 | for a tree and a source only one collection is like that: labels, definitions, numbers and both orders |
| `MdFootnotes.DefsAreUnique` | packages/macro-render/src/md-visitor.ts:126-137 | first-wins and document order leave one list of definitions |
| `MdFootnotes.NumberFootnotes` | packages/macro-render/src/md-visitor.ts:136-142 | the numbering is a bijection onto 1 to k in first-reference order; the rest are the definitions nobody refers to |
| `MdFootnotes.EmitFootnoteSection` | packages/macro-render/src/md-visitor.ts:371-386 | the section feeds the sink the described notes |
| `MdFootnotes.RenderDocument` | packages/macro-render/src/md-visitor.ts:390-399 | for every tree one frame is left, its content is the recursive rendering of the document, and the calls made bracket |
| `MdLaws.NotesAreExact` | packages/macro-render/src/md-visitor.ts:371-386 | note i is the first definition of the i-th label referred to; every collected definition is shown exactly once |
| `MdLaws.DocumentIsWellNested` | packages/macro-render/src/md-visitor.ts:281-399 | for every tree heads, bodies, rows, cells and notes stand only where they belong, and no footnote number is shown without its note |
| `MdLaws.RenderMarkdown` | packages/macro-render/src/render.ts:196-198 | the whole render: footnotes collected as described, nested rendering and well-nestedness together |
| `MdLaws.RenderingIsDetermined` | packages/macro-render/src/md-visitor.ts:119-143 | and with them one document: no two collections that meet the description render differently |
| `FilterAuthorized.AskStore` | packages/authz/src/check.ts:210-257 | one trip grants exactly the ids answered yes after the hook and returns the ids not answered |
| `FilterAuthorized.RunRetries` | packages/authz/src/check.ts:291-305 | the retry loop re-asks in tens and keeps what is still silent |
| `FilterAuthorized.RunChunk` | packages/authz/src/check.ts:259-351 | one chunk's result and trips: refused when the store was wholly silent, else the verdicts heard |
| `FilterAuthorized.RetriesOnlyRecover` | packages/authz/src/check.ts:291-305 | retries never make more ids silent, and leave all silent exactly when none was answered |
| `FilterAuthorized.SelectIds` | packages/authz/src/check.ts:184-198 | the first loop settles ids by restriction and hook and lists the rest, in order |
| `FilterAuthorized.RunWaves` | packages/authz/src/check.ts:354-360 | lanes run wave by wave; a failed chunk fails the call and later waves are not asked |
| `FilterAuthorized.FilterAuthorized` | packages/authz/src/check.ts:151-361 | it returns exactly when no chunk of a wave reached fails, and then exactly the expected ids with every trip made |
| `FilterAuthorizedLaws.ChunkTripIs` | packages/authz/src/check.ts:259-351 | a retry asks only ids of its chunk the first trip left silent |
| `FilterAuthorizedLaws.TripsAreNarrow` | packages/authz/src/check.ts:200-368 | every trip has 1 to 50 ids, every retry at most 10, and a chunk at most 6 trips |
| `FilterAuthorizedLaws.AnsweredIsNotReasked` | packages/authz/src/check.ts:259-305 | for distinct ids, over all trips of all chunks: two trips that ask about one id are the first of its chunk, which heard nothing about it, and the one retry that took it up; so no answered id is asked again |
| `FilterAuthorizedLaws.RetriedWasSilent` | packages/authz/src/check.ts:291-305 | whatever the ids, a retry asks only about ids the first trip of its chunk left without a verdict |
| `FilterAuthorizedLaws.AskedIffUnsettled` | packages/authz/src/check.ts:184-200 | the store is asked about an id exactly when restriction and hook leave it open |
| `FilterAuthorizedLaws.ReturnIsExact` | packages/authz/src/check.ts:151-361 | an id is returned exactly when it passes the restriction and is allowed by the hook or by a verdict actually heard |
| `FilterAuthorizedLaws.ReturnIsPointwiseCheck` | packages/authz/src/check.ts:74-361 | against any truthful store the result is the pointwise check of each id that was answered, and of all ids when all were |
| `FilterAuthorizedLaws.RefusedIffWhollySilent` | packages/authz/src/check.ts:259-351 | a chunk with no lost trip is refused exactly when no trip of it was answered at all |
| `FilterAuthorizedLanes.InterleavingIsIrrelevant` | packages/authz/src/check.ts:354-360 | however the answers of parallel lanes interleave, the set collected is the same |
| `StoreBinding.SearchIsExact` | apps/server/src/openfga-resolve.ts:43-48 | none, one or several is answered by how many stores have the name, in any listing order |
| `StoreBinding.NextKeepsInv` | apps/server/src/openfga-resolve.ts:105-185 | every step of every process, lost sessions and late creations included, keeps the lock exclusive and what its holder has read true |
| `StoreBinding.EveryBootBindsOneStore` | apps/server/src/openfga-resolve.ts:105-185 | in every run of interleaved boots, crashes and lost sessions all results name the store in the row, creation under the lock happens only with no row and at most once, and each session lost on the way to a creation adds at most one store |
| `StoreBinding.CommittedRowIsFinal` | apps/server/src/openfga-resolve.ts:105-185 | a committed row never changes, no store is created under the lock after it, and outside it at most what was under way |
| `StoreBinding.BootAnswers` | apps/server/src/openfga-resolve.ts:105-185 | from any reachable state with the lock free a boot runs to one answer, and the stores grow by exactly the one it created |
| `StoreBinding.RecoversAfterCrash` | apps/server/src/openfga-resolve.ts:168-185 | after a crash between creating the store and committing its row the next unpinned boot binds that store, when no stray lies beside it |
| `StoreBinding.RebootBindsExactly` | packages/authz/src/store-binding.ts:53-104 | a later boot binds the row's store exactly when it is alive and is the pin or the only one named, and refuses otherwise |
| `StoreBinding.LostReportIsFalseExactly` | packages/authz/src/store-binding.ts:67-78 | when the report of a lost store is false |
| `StoreBinding.LostReportCanBeFalse` | apps/server/src/openfga-resolve.ts:105-154 | a run that ends in that false report |
| `StoreBinding.LostSessionCanMakeTwo` | apps/server/src/openfga-resolve.ts:168-185 | a run in which a lost session leaves two stores of the name and later unpinned boots ask for a pin |
| `StoreCreation.StoresToComeExactly` | apps/server/src/openfga-resolve.ts:105-185 | from any moment of any run, a continuation that loses no further session on its way to a creation can end with n stores made by boots exactly when n is at most those made, those under way and the one still to be made, if no row and no store made is there and none has the name or the holder has already searched |
| `StoreCreation.LostSessionsAddOneEach` | apps/server/src/openfga-resolve.ts:105-185 | with further losses at most one more each; over a whole run at most one and the losses |
| `OrderedCache.StoreIs` | apps/server/src/title-dict-cache.ts:64-69 | a store puts in its own entry, evicts at most the oldest, touches nothing else, and keeps at most 500 |
| `OrderedCache.GetIs` | apps/server/src/title-dict-cache.ts:44-49 | a get answers with a live entry of exactly that key and drops at most that entry, expired |
| `OrderedCache.DropPrefixIs` | apps/server/src/title-dict-cache.ts:74-78 | an invalidation drops exactly the keys with the prefix |
| `ViewerCaches.TitleDictCache.Get` | apps/server/src/title-dict-cache.ts:44-49 | the answer and the cache after it, by that description |
| `ViewerCaches.TitleDictCache.Set` | apps/server/src/title-dict-cache.ts:51-70 | a writer whose generation has passed changes nothing |
| `ViewerCaches.TitleDictCache.Invalidate` | apps/server/src/title-dict-cache.ts:74-78 | the walk over a snapshot of the keys drops the tenant's entries and bumps its generation |
| `ViewerCaches.TitleDictCache.BeginFill` | apps/server/src/title-dict-cache.ts:86-91 | only the first of concurrent fills of a key goes on |
| `ViewerCaches.TreeConfirmCache.Set` | apps/server/src/tree-confirm-cache.ts:49-65 | the borrowed generation guards the tree cache the same way |
| `ViewerCaches.TreeConfirmCache.Invalidate` | apps/server/src/tree-confirm-cache.ts:102-105 | deleting while walking the live map drops exactly the prefixed keys |
| `ViewerCaches.InvalidateBoth` | apps/server/src/app.ts:309-313 | one signal invalidates both caches and bumps the shared generation |
| `CacheRaces.NextKeepsFresh` | apps/server/src/title-dict-cache.ts:44-94 | every step keeps every entry younger than its tenant's last change, in-place extension of a cached verdict map included |
| `CacheRaces.NextKeepsNames` | apps/server/src/routes/pages.ts:505-524 | every such step keeps each verdict map computed for its own viewer alone, and each request that extends one on its own |
| `CacheRaces.NothingStaleIsServed` | apps/server/src/title-dict-cache.ts:44-94 | in every interleaving whatever a cache answers, in-place extensions included, was computed for exactly this viewer, after the tenant's last change, and both stay within bounds; asked of the run: tenants without separators, no answer from the store for a subject with a blank, both invalidators together |
| `CacheRaces.InvalidationIsPerTenant` | apps/server/src/title-dict-cache.ts:74-78 | invalidating one tenant drops its entries and only its |
| `CacheRaces.OneFillPerViewer` | apps/server/src/title-dict-cache.ts:85-94 | a fill is turned away exactly while one of its key runs, and no mark outlives its fill |
| `CacheRaces.DictKeyIsExact` | apps/server/src/title-dict-cache.ts:42 | with tenants free of the separator keys and prefixes tell tenants and subjects apart |
| `CacheInvalidation.DictKeyClashesExactly` | apps/server/src/title-dict-cache.ts:42 | another tenant or subject has the same key exactly when one of the two holds the separator |
| `CacheRaces.TreeKeyIsExact` | apps/server/src/tree-confirm-cache.ts:40 | the same for the tree's key when tenant and subject hold no space |
| `CacheInvalidation.TreeKeyClashesExactly` | apps/server/src/tree-confirm-cache.ts:40 | another tenant, subject or space has the same key exactly when one of the three holds a blank |
| `CacheInvalidation.SharedKeyIsServedExactly` | apps/server/src/tree-confirm-cache.ts:42-65 | for any two viewers, one's verdicts are served to the other exactly when their keys are equal |
| `CacheRaces.SpacedSubjectIsServedAnothersVerdicts` | apps/server/src/tree-confirm-cache.ts:40 | a run of that, if the store answered for a subject with a blank |
| `CacheInvalidation.SpacedSubjectExtendsAnothersVerdicts` | apps/server/src/routes/pages.ts:512-518 | and one in which its verdicts are added to another viewer's cached map |
| `CacheRaces.UnpairedInvalidationServesStale` | apps/server/src/tree-confirm-cache.ts:102-105 | a run in which the tree's invalidator fires alone and a stale answer is served |
| `CacheInvalidation.LoneInvalidatorIsSafeExactly` | apps/server/src/tree-confirm-cache.ts:27-65 | after any ordinary run, the tree's invalidator may fire alone exactly when no dictionary of the tenant is cached and no fill for it has read under the generation in force; otherwise some run after it serves something stale |
| `CacheInvalidation.StoredFillIsStale` | apps/server/src/tree-confirm-cache.ts:49-65 | after the tree's invalidator has fired alone each such fill, let finish, is stored and answers its own viewer with what was read before the change |
| `CanonicalJson.EscapeReadsBack` | apps/server/src/audit/chain.ts:55-58 | an escaped string can be read back in one way, whatever follows its closing quote |
| `CanonicalJson.PrintReadsBack` | apps/server/src/audit/chain.ts:55-58 | equal JSON text means equal value, for any value and whatever follows |
| `AuditChain.SortForgetsOrder` | apps/server/src/audit/chain.ts:51-53 | sorting changes by key forgets the order they were inserted in |
| `AuditChain.CanonicalIsExact` | apps/server/src/audit/chain.ts:51-58 | two entries have one canonical text exactly when they record the same thing, insertion order and null aside |
| `AuditChain.IdealExists` | apps/server/src/audit/chain.ts:60-63 | what the laws ask of the digest can be met |
| `AuditChain.VerifyAuditChain` | apps/server/src/audit/chain.ts:82-91 | valid exactly when every entry is sound; else the first that is not, with the right reason |
| `AuditLaws.TailHashDeterminesChain` | apps/server/src/audit/chain.ts:76-91 | two verifying chains with one tail hash are equal entry for entry |
| `AuditLaws.HashesAreDistinct` | apps/server/src/audit/chain.ts:60-68 | no hash repeats in a verifying chain |
| `AuditLaws.EditIsFoundWhereItStarts` | apps/server/src/audit/chain.ts:76-91 | any rewriting that reuses the log's hashes is reported exactly at the first entry it changes |
| `AuditLaws.DeletionIsFound` | apps/server/src/audit/chain.ts:76-91 | deleting an entry is reported where it was, exactly when something followed it |
| `AuditLaws.SwapIsFound` | apps/server/src/audit/chain.ts:76-91 | swapping two entries is reported at the earlier |
| `AuditLaws.AlterationIsFound` | apps/server/src/audit/chain.ts:76-91 | altering a record is reported there exactly when it records something else |
| `AuditLaws.RelinkedAlterationIsFoundNext` | apps/server/src/audit/chain.ts:76-91 | re-linking an altered entry moves the report to the next one, and off the end |
| `AuditLaws.AppendIsLinking` | apps/server/src/audit/chain.ts:65-68 | linking onto the last hash is the one way to extend a verifying chain |
| `OperatorLedger.NextKeepsInv` | apps/server/src/audit/operator-ledger.ts:34-71 | every step of every transaction keeps the committed rows a chain that only the lock holder's rows continue |
| `OperatorLedger.CommittedRowsAreOneChain` | apps/server/src/audit/operator-ledger.ts:34-90 | in every interleaving of appends, commits and rollbacks the committed rows verify, are numbered from 1 without a gap, and only ever grow at the end |
| `OperatorLedger.RollbackErases` | apps/server/src/audit/operator-ledger.ts:29-36 | whatever a transaction appended and however its steps lay between those of others, once it ends without a commit the ledger is what the others alone would have made it |
| `LeafMigration.IndexTextIsExact` | infra/openfga/migrate-218-direct-leaves.ts:58 | on one page the index text tells tuples apart though user ids may hold the separator |
| `LeafMigration.PlanPage` | infra/openfga/migrate-218-direct-leaves.ts:48-74 | the two passes yield the leaf and marker writes missing and the stale grants to delete |
| `LeafMigrationLaws.WritesAreExact` | infra/openfga/migrate-218-direct-leaves.ts:58-74 | the plan writes exactly what the migrated page has and the page has not |
| `LeafMigrationLaws.BatchesAreAccepted` | infra/openfga/migrate-218-direct-leaves.ts:87-95 | every batch is at most 100, no write is a duplicate or already stored, every delete is stored |
| `LeafMigrationLaws.PartialIsBetween` | infra/openfga/migrate-218-direct-leaves.ts:77-95 | a page cut short anywhere has each old grant untouched or its leaf in place |
| `LeafMigrationLaws.CompletedIsMigrated` | infra/openfga/migrate-218-direct-leaves.ts:48-95 | a page run to its end reads as the store before promised |
| `LeafMigrationLaws.MigratePage` | infra/openfga/migrate-218-direct-leaves.ts:33-95 | the script's loops over a page never fail, migrate it, and touch no other page |
| `LeafMigrationRuns.TargetIsFixed` | infra/openfga/migrate-218-direct-leaves.ts:31-97 | the final store can be read off any moment on the way |
| `LeafMigrationRuns.FinalStoreIsFixed` | infra/openfga/migrate-218-direct-leaves.ts:31-97 | whatever crashed and was run again, a page once finished has its one final content for good |
| `LeafMigrationRuns.EveryGrantStands` | infra/openfga/migrate-218-direct-leaves.ts:61-72 | at every moment each original grant is there in old or leaf form, and when the leaf has its condition |
| `LeafMigrationRuns.ConditionCanBeReplaced` | infra/openfga/migrate-218-direct-leaves.ts:58-72 | a store whose unconditional grant is lost to a leaf that expires |
| `LeafMigrationRuns.MigratedPageNeedsNothing` | infra/openfga/migrate-218-direct-leaves.ts:76 | a run over a migrated page plans nothing |
| `GroupSync.FgaGroups.Write` | packages/authz/src/tuples.ts:32-70 | a batch is taken whole or refused whole, and a lost answer leaves either |
| `GroupSync.ConvergeWrites` | apps/server/src/auth/group-sync.ts:93-103 | the batch and then one-by-one fallback ends with every tuple there, or part way |
| `GroupSync.ConvergeDeletes` | apps/server/src/auth/group-sync.ts:93-103 | the same for deletes |
| `GroupSync.SyncMemberGroups` | apps/server/src/auth/group-sync.ts:70-106 | from any store and under any failures a normal return makes exactly the diff true and changes nothing else |
| `GroupSync.DiffIs` | apps/server/src/auth/group-sync.ts:77-81 | additions and removals never meet, and decide exactly the groups that differ |
| `GroupDirectory.RetriesConverge` | apps/server/src/auth/group-sync.ts:70-106 | however many attempts failed part way, the one that returns leaves what the first would have |
| `GroupDirectory.Directory.Login` | apps/server/src/auth/group-sync.ts:126-138 | a login sets its connection's slice and keeps members' groups the union of slices and the store its image; a failure changes no row |
| `GroupDirectory.Directory.RevokeConnection` | apps/server/src/auth/group-sync.ts:145-165 | revoking a connection drops its slices, member by member, and keeps the same |
| `GroupDirectory.Directory.RevokeSlice` | apps/server/src/auth/group-sync.ts:177-196 | unlinking drops one slice and nobody else's |
| `GroupDirectory.UnionHoldsEverySlice` | apps/server/src/auth/group-sync.ts:108-118 | a member's groups are each connection's claim together with the others' |
| `YdocStore.FlushIsUnseenLoss` | apps/collab/src/ydoc.ts:78-91 | the guard refuses exactly when an empty state would lose an item its writer never deleted |
| `YdocStore.LoadedThenClearedIsAccepted` | apps/collab/src/ydoc.ts:69-91 | a writer that loaded the stored document at any point and ends empty is accepted, whatever it did |
| `YdocStore.NeverLoadedIsRefused` | apps/collab/src/ydoc.ts:69-91 | one that holds nothing of it is refused |
| `YdocStore.JoinIsSemilattice` | apps/collab/src/ydoc.ts:78-91 | applying updates is commutative, idempotent and associative |
| `YdocStore.Page.AttemptWrite` | apps/collab/src/ydoc.ts:120-142 | one attempt's outcome and row, with other writers before the read and between the read and the update, and an acknowledgement that may be lost |
| `YdocStore.Page.StoreYdoc` | apps/collab/src/ydoc.ts:157-182 | at most four attempts; the row is the writer's exactly when the last attempt landed and otherwise what the others made of it; a refusal means an unseen item would have been lost, and a stored empty state lost none exactly when nobody committed an unseen item between read and update |
| `YdocStore.LandsExactly` | apps/collab/src/ydoc.ts:120-142 | an attempt's state is in the row exactly when stored is reported or the acknowledgement of that commit was lost |
| `YdocStore.EmptyStoreLosesNothingExactly` | apps/collab/src/ydoc.ts:125-140 | a stored empty state loses nothing exactly when what was committed between the guard's read and the update, or hidden from the read, shows only items the writer knew deleted |
| `YdocStore.CommitInBetweenCanBeLost` | apps/collab/src/ydoc.ts:125-140 | an empty page filled between read and update is wiped and reported stored |
| `YdocStore.HiddenReadCanLose` | apps/collab/src/ydoc.ts:125-140 | so is one that the read could not see |
| `ConnectionRekey.Tenant.ApplySupersession` | apps/server/src/auth/connection-rekey.ts:76-133 | a refusal or any collision writes nothing and lists every collision; otherwise every carrier's place is filled, no link changes, and all are carried over exactly when their subjects are distinct and nobody took a carrier's place between the check and the writes |
| `ConnectionRekey.Tenant.FindCollisions` | apps/server/src/auth/connection-rekey.ts:98-110 | the first pass finds every collision before anything is written |
| `ConnectionRekey.Tenant.WriteLinks` | apps/server/src/auth/connection-rekey.ts:113-120 | the second pass adds the missing links and counts them |
| `ConnectionRekey.GrownCarriesOver` | apps/server/src/auth/connection-rekey.ts:95-120 | why those two conditions are exactly what carrying everyone over needs |
| `ConnectionRekey.LiteralPrefixIsDistinct` | apps/server/src/auth/connection-rekey.ts:95-101 | members minted with the prefix to the letter have distinct subjects |
| `ConnectionRekey.SecondRunWritesNothing` | apps/server/src/auth/connection-rekey.ts:89-120 | run again, it collides with nothing and writes nothing |
| `ConnectionRekey.UnderscoreMatchesAnything` | apps/server/src/auth/connection-rekey.ts:95-96 | two members that the wildcard takes for carriers of one subject |
| `FactorFloor.GuardIsExact` | apps/server/src/auth/factor-policy.ts:375-403 | the outbound guard refuses an active admin exactly the removals after which the floor is not met, and others none |
| `FactorFloor.NextKeepsFloor` | apps/server/src/auth/factor-policy.ts:237-403 | every guarded step at one host keeps the floor |
| `FactorFloor.FloorHoldsInEveryRun` | apps/server/src/auth/factor-policy.ts:237-403 | so it holds in every run of stance changes, enrolments and removals |
| `FactorFloor.StepKeepsFloorExactly` | apps/server/src/auth/factor-policy.ts:184-403 | a request arriving at any host keeps the floor of another exactly when it is refused or that host's own guard would let it through |
| `FactorFloor.FloorOverHostsExactly` | apps/server/src/auth/factor-policy.ts:184-403 | over any run at any hosts the floor of a host never falls exactly when that is so of every request in it |
| `FactorFloor.TwoHostsCanBreakTheFloor` | apps/server/src/auth/factor-policy.ts:184-190 | a run over two hosts that breaks it |
| `FactorFloor.OverlappingRemovalsCanBreakTheFloor` | apps/server/src/auth/factor-policy.ts:375-403 | two removals, both checked before either deletes, that break it |
| `FactorFloor.StanceOverRemovalCanBreakTheFloor` | apps/server/src/routes/admin-login-methods.ts:220-236 | a stance and the removal of the only factor, both checked before either writes, that break it in either order |
| `FactorFloor.OverlappingRemovalsExactly` | apps/server/src/auth/factor-policy.ts:375-403 | the same for two removals |
| `FactorFloor.OverlappingStepsExactly` | apps/server/src/routes/second-factor.ts:578-625 | when any two requests at one host both check before either writes, the floor stands after both exactly when the second, checked again after the first, would pass |
| `FactorFloor.WriteKeepsFloorExactly` | apps/server/src/auth/factor-policy.ts:270-403 | whenever a request checked earlier writes, it keeps the floor of a host exactly when its guard, asked again there, would pass |
| `FactorFloor.FloorOverOverlapsExactly` | apps/server/src/auth/factor-policy.ts:237-403 | any number of requests at any hosts, each checked at one moment and written at another: the floor never falls exactly when every write comes while its guard would still pass |

## Left out

- Strings are sequences of Unicode scalar values; JavaScript's UTF-16 code units, and so its offsets beyond the basic plane, are not modelled.
- Numbers are unbounded: line numbers in a fence are not rounded at 2^53, so FenceLaws.RoundTrip asks its ranges to stay below it.
- Lezer, KaTeX, Yjs, SHA-256, `toLowerCase` and the Unicode letter classes are parameters: an arbitrary tree, a renderer, a join of items and deletions, an injective digest, functions on characters.
- Postgres is one table state per step at READ COMMITTED with the advisory lock; OpenFGA is a map with all-or-nothing batches. HTTP, Valkey, timers, backoff delays and log lines are not part of this model.
- FenceLaws.RoundTrip: stated for canonical descriptions only; which others survive by accident is not characterised.
- `parseFenceLine`, the editing surfaces' use of the fence model, and the other operations of `mcp-edit-apply.ts` that parse the request.
- FilterAuthorized.FilterAuthorized: the text of the report to the error tracker, a fractional or non-numeric lane count, the relation table and `checkMemberAccess` are not modelled.
- The macros' own output, `renderInner` and fidelity are one parameter each; `walkInlineMarkdown` is not modelled. An alignment that names a property inherited from `Object.prototype` is treated as unknown.
- MdWalker.MdWalker.WalkInlineChildren: a child that straddles a formula is skipped and a pending break is not flushed before a formula, as in the code; no claim is made that this placement is the right one.
- MdSink.HtmlSink.CloseRole: a frame keeps the joined text of its parts rather than the list, which joins to the same markup.
- Headings.ExtractHeadings: the parse is taken to yield non-empty heading nodes in document order, none starting with a newline.
- StoreBinding.EveryBootBindsOneStore: the forget and rebind commands, and stores created or deleted by anybody else during the run, are outside it. Draining the list of stores page by page is not modelled.
- CacheRaces.NothingStaleIsServed: a writer that passes no generation, and the test-only clearing of everything, are outside it; the badge cache is display-only and not modelled.
- AuditChain.CanonicalIsExact: a number is known by the decimal text JavaScript prints for it; keys sort by scalar value.
- OperatorLedger.CommittedRowsAreOneChain: the transparency projection that rides the same transaction is not modelled.
- LeafMigration.PlanPage: a relation named like a property that every plain object inherits is not modelled; the authorization model has none.
- GroupDirectory.Directory.Login: a login with no connection bound, which writes its raw claim instead of the union, is outside it, and so are the leftovers of a failed attempt followed by a different claim. The stored order of a member's groups is not kept.
- YdocStore.Page.StoreYdoc: the published-changes flag and compaction of bloated documents are not modelled. What a non-empty state overwrites is not guarded by the code, and nothing is claimed about it.
- ConnectionRekey.Tenant.ApplySupersession: percent signs and backslashes in a prefix, and the audit row, are not modelled; sign-ins during the transaction are modelled at one point, between its two passes, and unlinks there are not.
- FactorFloor.FloorHoldsInEveryRun: role changes, suspension, resets and a stance that no door can enrol are outside it.
- At-most-once of the multi-pod edit election rests on timing and is not modelled.
