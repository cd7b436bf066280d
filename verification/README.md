# Verification of agent-framework

A Dafny model of the stateful parsing and streaming logic of this repository, and proofs
about it. The model follows the code branch by branch; loops and objects that change
state are methods and classes, each proved against a function whose meaning separate
lemmas establish.

What is covered:

- **The parity ledger** (`xtask/src/ledger.rs`). A parameter type is written in C# source
  spelling or as a CLR signature; both are printed here from one abstract type, and the
  normaliser is shown to bring both to the same tokens and never to confuse two types
  (`ParameterTypes.dfy`, `ParameterSpellings.dfy`). Member keys, placeholder binding and
  the inventory lookup stand on that (`MemberKeys.dfy`, `Overloads.dfy`), the two type-key
  printers are inverses exactly on canonical names (`TypeKeys.dfy`), and the report's
  counts conserve keys exactly when the sources are disjoint (`Report.dfy`).
- **The feature checker** (`xtask/src/features.rs`). The worklist computes exact
  reachability on any graph, over entries read by their spelling; a problem is reported
  exactly when its rule is broken, and none exactly when the documented rules hold
  (`Features.dfy`).
- **The Anthropic stream** (`crates/agent-framework-anthropic/src/lib.rs`). Bytes to
  lines to events to updates (`Utf8.dfy`, `EventLines.dfy`), compared with decoded events
  (`Transports.dfy`), the table of content blocks (`StreamEvents.dfy`, `BlockStreams.dfy`)
  and all a stream tells (`StreamContents.dfy`), the two forms of the paused-turn protocol (`PauseTurns.dfy`) and its streamed form over
  these streams (`StreamedTurns.dfy`).
- **The A2A client** (`crates/agent-framework-a2a`). Frames and their events
  (`SseFrames.dfy`), the JSON forms of the wire types (`A2AWire.dfy`,
  `WireRoundTrips.dfy`), content and message conversions, conversation continuity and the
  forwarded stream (`A2AAgent.dfy`, `A2ARuns.dfy`).
- **The chunked-body decoder** (`examples/hosting/streaming_sse.rs`), against section 7.1
  of RFC 9112 (`ChunkDecoder.dfy`).

Code outside the model enters as parameters: parsing JSON text, writing it, what the
Anthropic conversion code makes of usage, hosted blocks and turns (`Conversion`), the
server's answers, and a fresh message id. A connection is a sequence of chunks that may
break; a poll is one call of `Next`. A text is ASCII or Unicode scalar values as Dafny's
`char` has them, and a machine word has 64 bits.

Where the code departs from what its comments say, the model follows the code:

- `parse_event_value_stream` promises the same handling as `parse_sse_stream`, but the
  latter yields an error event ahead of the updates its own chunk queued.
  `Transports.TransportsAgree` says exactly which chunks make them differ.
- `catalog_type_key` is called the inverse of `clr_type_key`; it is so exactly on the
  names `IsCanonicalClr` describes.
- A persisted conversation is meant to be the one just had, but an empty state leaves an
  earlier one in place (`A2AAgent.StoredExactly`).
- `metadata` holding the JSON null is a value the types can carry and the wire cannot
  (`WireRoundTrips.EventRoundTrips`).
- The chunk decoder calls a zero chunk terminal, but nothing remembers it: bytes after it
  are dropped in its own feed only (`ChunkedBody.EndKeptExactly`).

`stream_event_to_updates` keeps `run`'s bookkeeping wherever JSON can be written as text
(`A2ARuns.StoreAlike`), which is what happens: a JSON value always can. The code's error
branch for it is in the model, so `A2ARuns.RunAndStreamAgree` speaks of it too.

## Model

| member | source | states |
|---|---|---|
| ParameterTypes.ParameterType | xtask/src/ledger.rs:364-430 | The modifier loop, the scanner and the bracket-stack loop together give one normal form, `ParameterTokens`; `SpellingTokens` says what that form means |
| ParameterTypes.ScanTokens | xtask/src/ledger.rs:380-408 | The scanning loop emits the by-reference mark at most once, first, and then the tokens of the text, each consumed once |
| ParameterTypes.ScanName | xtask/src/ledger.rs:381-393 | A name token runs to the first character no name can hold |
| ParameterTypes.DropNullable | xtask/src/ledger.rs:409-429 | The index-and-stack loop ends and refines the recursive erasure `EraseNullable`, whatever the brackets |
| ParameterSpellings.TokenizeSpell | xtask/src/ledger.rs:381-408 | Scanning either spelling of any type tree gives that tree's own tokens: qualifiers, arities, blanks and `?` are gone, and each keyword is the runtime's name of its type |
| ParameterSpellings.AliasIsRuntimeName | xtask/src/ledger.rs:436-458 | Each of the eighteen C# keyword types normalises to the runtime's own name for it, from a table that says nothing of the normaliser |
| ParameterSpellings.OnlyKeywordsAreAliased | xtask/src/ledger.rs:436-458 | No other name is renamed |
| ParameterSpellings.EraseRaw | xtask/src/ledger.rs:409-429 | On the tokens of any type tree, inside any brackets already open, the stack loop removes exactly the `Nullable` wrappers, at every depth, and leaves the stack as it found it |
| ParameterSpellings.SpellingTokens | xtask/src/ledger.rs:364-430 | For every parameter and either spelling, the normal form is the by-reference mark, if any, and the erased type's tokens |
| ParameterSpellings.SpellingsAgree | xtask/src/ledger.rs:353-430 | The C# spelling of a parameter, keywords included, and its CLR spelling, with the runtime's names, normalise alike; and two parameters share a normal form if and only if they are passed alike and their erased types are equal |
| ParameterSpellings.ParamTokensInjective | xtask/src/ledger.rs:364-430 | Normal forms are equal if and only if passing mode and erased type are, so a by-value spelling never equals a by-reference one |
| ParameterSpellings.PlainInjective | xtask/src/ledger.rs:364-430 | A token list can be read back as an erased type in one way only, whatever follows it |
| TopLevel.SplitList | xtask/src/ledger.rs:331-351 | The depth-counting loop ends on every text and gives the pieces the next three members describe, none for a blank list |
| TopLevel.SplitRejoins | xtask/src/ledger.rs:331-351 | The pieces of any list that is not blank, joined again, are the list: nothing is lost or moved |
| TopLevel.PiecesOfEntry | xtask/src/ledger.rs:336-349 | A balanced entry is one piece, and a comma after it starts the next at depth zero |
| TopLevel.SplitJoin | xtask/src/ledger.rs:331-351 | Splitting a joined non-blank list of balanced entries gives back the entries |
| TypeKeys.ComputeClrTypeKey | xtask/src/ledger.rs:298-328 | The character loop with its saturating depth gives the key `RoundTripExactly` speaks of |
| TypeKeys.SegmentsReadBack | xtask/src/ledger.rs:235-254 | Each printed segment, with any parameter names, reads back as the segment with its arity in canonical decimal |
| TypeKeys.RoundTripExactly | xtask/src/ledger.rs:224-256 | For every CLR name and parameter names, `clr_type_key` undoes `catalog_type_key` if and only if the name has a namespace, no dot in a nested name, no `<` and canonical decimal arities |
| TypeKeys.NoNamespaceIsLost | xtask/src/ledger.rs:224-256 | The case that fails: a name without a namespace does not come back |
| TypeKeys.CatalogKeyInjective | xtask/src/ledger.rs:224-256 | Two canonical CLR names with one catalog key are the same name, whatever parameter names each was printed with |
| TypeKeys.OddArity | xtask/src/ledger.rs:235-254 | An arity that is no number, or none the machine word holds, counts as zero, and a plus sign before one for nothing |
| MemberKeys.ComputeTypeGenerics | xtask/src/ledger.rs:513-537 | The loop ends on every text, each round leaving less of it, and lists what `PrintedGenerics` says |
| MemberKeys.FindGroupEnd | xtask/src/ledger.rs:517-530 | The closing bracket found is the one where the depth first returns to zero, or the end of the text |
| Overloads.SourceShape | xtask/src/ledger.rs:477-508 | A printed source key reads back as its name, its generic parameters and its parameters' normal forms |
| Overloads.ClrShape | xtask/src/ledger.rs:477-508 | A printed inventory key reads back as its name, one placeholder for each generic parameter and its parameters' normal forms; the return type drops out |
| Overloads.BindPlain | xtask/src/ledger.rs:543-563 | Naming the placeholders in an erased type's tokens gives the tokens of the type over those names |
| Overloads.BindParam | xtask/src/ledger.rs:543-563 | Binding `!!N` and `!N` in a normalised CLR parameter gives exactly the normalised source parameter |
| Overloads.MatchesExactly | xtask/src/ledger.rs:568-603 | A source key matches an inventory member if and only if name, generic arity, passing modes and erased parameter types are the same |
| Overloads.MatchesMember | xtask/src/ledger.rs:592-602 | Where one key lists no parameters, a source key matches an inventory member if and only if name and generic arity are the same; where both do, if and only if they name one overload |
| Overloads.ResolvesExactly | xtask/src/ledger.rs:578-604 | A member key, with a parameter list or without, resolves if and only if its group holds a key declaring that member, or one outside the modelled types that matches |
| Overloads.DeclaredResolves | xtask/src/ledger.rs:578-604 | A member declared in its group resolves, whatever else the group holds |
| Overloads.TypeResolves | xtask/src/ledger.rs:578-586 | A type key, printed for a canonical CLR name, resolves if and only if the inventory holds that name |
| Overloads.UnspelledParameter | xtask/src/ledger.rs:539-575 | A type parameter beyond those the key names matches exactly the parameters of one token; a method parameter beyond the key's arity stays and matches none |
| Overloads.PrintedGenerics | xtask/src/ledger.rs:513-537 | From any printed segments on, the generic parameters found are all those declared, outermost first |
| Overloads.PrintedKeyDeclares | xtask/src/ledger.rs:224-256 | The key printed for a canonical CLR name both turns back into that name and declares as many parameters as its arities say, in order: the names given, and `T` with its number beyond them |
| Report.InventoryOnlyIsDisjoint | xtask/src/ledger.rs:265-291 | Over canonical CLR names, an inventory-only key is in neither catalog, and each such type has a key of its own |
| Report.DisjointExactly | xtask/src/ledger.rs:265-291 | Inventory-only keys are disjoint from both catalogs, whatever these hold, if and only if every inventory name is canonical |
| Report.Tally | xtask/src/ledger.rs:730-759 | In every namespace each cell counts exactly the keys of that status, the unreviewed and the Rust-only ones |
| Report.GapRows | xtask/src/ledger.rs:818-841 | In the order of their keys, exactly the declarations Rust assesses as partial or unmapped, with their note, and those of Go or .NET it has not reviewed; each with Rust's status or `unreviewed` and Go's or a dash |
| Report.SumUnreviewed | xtask/src/ledger.rs:893-895 | The printed total is the sum over all namespaces, that is Go keys without a Rust leaf and inventory-only keys together |
| Report.Sections | xtask/src/ledger.rs:893-936 | Every gap row is in exactly one of the sections, each holding what its heading says; the printed total equals the unreviewed rows if and only if inventory-only keys are disjoint from the catalogs |
| Report.RowsConserveKeys | xtask/src/ledger.rs:730-767 | With known statuses, in every namespace the Go cells sum to the Go keys; and the Rust cells with the unreviewed sum to all keys if and only if the sources are disjoint |
| Report.TotalIsExact | xtask/src/ledger.rs:893-936 | The two parts of the unreviewed total count each unreviewed key once if and only if the sources are disjoint |
| Features.Closure | xtask/src/features.rs:93-120 | On every workspace, cyclic or not, the worklist ends and returns exactly the pairs some chain of entries leads to, each entry taken by its spelling |
| Features.TargetIsSpelled | xtask/src/features.rs:104-116 | What an entry turns on is what it spells, and nothing else: a bare name that feature of its own crate; a key, any question marks, a slash and a name that feature of the key's package; an entry with `dep:` nothing |
| Features.PushTargets | xtask/src/features.rs:103-117 | Everything an entry turns on is pushed, and nothing a chain does not reach |
| Features.Problems | xtask/src/features.rs:166-288 | A problem is reported if and only if its rule is broken; the count is that of the declared experimental features |
| Features.DeclaredFeatures | xtask/src/features.rs:169-180 | The nested loops collect exactly the non-umbrella crates declaring each experimental feature |
| Features.ReachProblems | xtask/src/features.rs:182-210 | A crate's `default` or `full` is reported exactly when some chain leads from it to an experimental feature, and so is each unconditional dependency feature |
| Features.ForwardingProblems | xtask/src/features.rs:212-237 | Reported exactly when a crate declares an experimental feature, a dependency does too, and neither spelling forwards it |
| Features.TableProblems | xtask/src/features.rs:239-286 | Table, umbrella and naming rules are each reported exactly when broken |
| Features.CleanExactly | xtask/src/features.rs:166-288 | The report is empty if and only if the workspace and the table follow the documented rules: no chain from `default` or the umbrella's `full` and no dependency turns on an experimental feature, every crate hands its own on, and table and umbrella list exactly the declared ones, named letter by letter after their ids |
| Features.ForwardingEntry | xtask/src/features.rs:108-113 | Either spelling of a forwarding entry turns on the dependency's own feature |
| Features.ForwardsAlongChain | xtask/src/features.rs:212-237 | With an empty report, an experimental feature carries along every dependency chain of crates that declare it |
| Features.ExperimentalReachesAll | xtask/src/features.rs:239-286 | With an empty report, the umbrella's `experimental` reaches every declared experimental feature, along every such chain |
| PauseTurns.ContinuePausedTurns | crates/agent-framework-anthropic/src/lib.rs:442-471 | The loop sends the conversations of the protocol in order and returns the left fold of the merge over all turns, or the first error |
| PauseTurns.PausedStream.constructor | crates/agent-framework-anthropic/src/lib.rs:655-679 | A new stream is to yield and send what the protocol says, from its first opened stream on |
| PauseTurns.PausedStream.OnExhausted | crates/agent-framework-anthropic/src/lib.rs:694-712 | At a stream's end the next one is opened exactly while the turn is paused, replayable and under the limit; an opening error is the last item |
| PauseTurns.PausedStream.Next | crates/agent-framework-anthropic/src/lib.rs:680-716 | Each poll gives the next item still to come and sends only the requests due by then |
| PauseTurns.Drain | crates/agent-framework-anthropic/src/lib.rs:655-717 | Polled to its end, the stream yields exactly the items and sends exactly the requests of the protocol |
| PauseTurns.SameRequests | crates/agent-framework-anthropic/src/lib.rs:442-717 | Given the same server, the loop and the stream send the same conversations in the same order |
| PauseTurns.RequestsFollowRule | crates/agent-framework-anthropic/src/lib.rs:452-469 | At most eleven requests; each next one is the last plus the turn just paused, and there is a next one exactly while the turn is paused, every message of it replayable and fewer than ten came before |
| PauseTurns.AlwaysPausing | crates/agent-framework-anthropic/src/lib.rs:452-469 | A server that always pauses on a replayable turn gets exactly eleven requests |
| PauseTurns.ResultHoldsAll | crates/agent-framework-anthropic/src/lib.rs:452-471 | Of whatever merging appends, the result holds that of all turns in their order; an error is the whole result |
| PauseTurns.BroadcastItems | crates/agent-framework-anthropic/src/lib.rs:680-716 | The items are every opened stream's updates in order up to the first error, and every stream but the last ended paused |
| StreamedTurns.OpenedExactly | crates/agent-framework-anthropic/src/lib.rs:482-618 | However its bytes are cut, an opened stream ends without error if and only if no event is an error and the connection does not break; it then brings all its events' updates, flagged as paused if and only if one of them stops on `pause_turn` |
| StreamedTurns.ReopensExactly | crates/agent-framework-anthropic/src/lib.rs:497-717 | After any stream of a call, read off its bytes: another is opened if and only if it came whole, one of its events stopped on `pause_turn`, its turn can be replayed and the limit is not reached; and it is asked for the conversation with that turn appended |
| StreamEvents.EventJsonDecodes | crates/agent-framework-anthropic/src/lib.rs:739-930 | Every event as the Messages API writes it, of any kind and index, reads back as that event |
| StreamEvents.StreamParser.HandleStreamValue | crates/agent-framework-anthropic/src/lib.rs:482-507 | An error event changes nothing and is returned; any other updates table, usage and pause flag as the event says |
| StreamEvents.StreamParser.ParseStreamEvent | crates/agent-framework-anthropic/src/lib.rs:739-963 | Table and usage become what `Apply` says of the event, whose sense the next lemmas give; a tool's mapping outlives its stop |
| StreamEvents.HandleAllAppend | crates/agent-framework-anthropic/src/lib.rs:482-507 | Handling events in two batches is handling them in one, unless the first ends in an error |
| StreamEvents.PausedExactly | crates/agent-framework-anthropic/src/lib.rs:497-505 | A stream without an error event is flagged paused exactly when one of its events stops on `pause_turn` |
| StreamContents.StreamTellsAll | crates/agent-framework-anthropic/src/lib.rs:739-963 | A stream as written tells exactly what its events say, in their order: response id and model, text, thinking, signatures, the names of its tool calls, blocks included whole and why it ended; and its usage is what each reported total adds |
| StreamContents.StreamPauses | crates/agent-framework-anthropic/src/lib.rs:497-505 | A stream as written is flagged paused exactly when one of its events is a message delta that stops on `pause_turn` |
| StreamContents.ErrorEnds | crates/agent-framework-anthropic/src/lib.rs:482-496 | An error event ends a stream with its message, or a standard one, and nothing after it changes anything |
| StreamContents.ServerToolStarts | crates/agent-framework-anthropic/src/lib.rs:788-807 | A tool the server runs starts as any tool does |
| StreamContents.EmptyStarts | crates/agent-framework-anthropic/src/lib.rs:808-812 | A block of text or thinking starts with nothing |
| StreamContents.NoIndexIsZero | crates/agent-framework-anthropic/src/lib.rs:770-930 | Any event without an index is read as one for block 0 |
| StreamContents.NoNameIsEmpty | crates/agent-framework-anthropic/src/lib.rs:774-807 | An id or name that a tool's start leaves out is empty |
| StreamContents.NoTextIsEmpty | crates/agent-framework-anthropic/src/lib.rs:837-903 | A text that a delta leaves out is empty |
| BlockStreams.ToolArgumentsComplete | crates/agent-framework-anthropic/src/lib.rs:739-963 | Among any interleaved events, the fragments under a tool's id concatenate to exactly its index's deltas, late ones included |
| BlockStreams.FragmentsAreDeltas | crates/agent-framework-anthropic/src/lib.rs:872-903 | From any table in which the index is that tool, fragments and deltas agree over every later event |
| BlockStreams.NothingBeforeStart | crates/agent-framework-anthropic/src/lib.rs:770-903 | No fragment carries a tool's id before the tool starts |
| BlockStreams.McpBuffers | crates/agent-framework-anthropic/src/lib.rs:872-903 | While an MCP block is open nothing of it is emitted, and its buffer is the concatenation of its deltas |
| BlockStreams.McpCallIsWhole | crates/agent-framework-anthropic/src/lib.rs:925-950 | An MCP block emits nothing before its stop and then exactly one call, its arguments the concatenation of all its deltas as it is, or none if that is blank; and never another |
| BlockStreams.WrittenToolCall | crates/agent-framework-anthropic/src/lib.rs:770-903 | From the JSON on the wire: a tool call written among any other blocks gives exactly its fragments, in order |
| BlockStreams.WrittenMcpCall | crates/agent-framework-anthropic/src/lib.rs:770-950 | From the JSON on the wire: an MCP call written among any other blocks gives exactly one call, its arguments all its deltas as they are, or none if those are blank |
| Utf8.Utf8StreamDecoder.Push | crates/agent-framework-core/src/streaming.rs:27-57 | The loop gives all the text that can be decoded and keeps exactly the incomplete end |
| Utf8.DecodeAppend | crates/agent-framework-core/src/streaming.rs:27-57 | Decoding does not depend on where the bytes are cut, invalid bytes included |
| Utf8.DecodeExactly | crates/agent-framework-core/src/streaming.rs:27-57 | Any bytes decode character by character; where none stands, the longest beginning of one, or else a single byte, becomes one U+FFFD, unless it is all there is and waits for more |
| Utf8.EncodedDecodes | crates/agent-framework-core/src/streaming.rs:27-57 | The UTF-8 bytes of any text decode to that text with nothing left over |
| EventLines.SseState.HandleLines | crates/agent-framework-anthropic/src/lib.rs:576-607 | The complete lines are handled in order and taken off the buffer, up to an error event |
| EventLines.SseState.Next | crates/agent-framework-anthropic/src/lib.rs:564-616 | Each poll gives the next item still to come, whichever chunk it arrives in |
| EventLines.ChunksYieldWhole | crates/agent-framework-anthropic/src/lib.rs:548-618 | However the bytes are cut: the updates of the whole text in order, then the connection's error; an error event overtakes only the updates queued from its own chunk |
| EventLines.DataLineReads | crates/agent-framework-anthropic/src/lib.rs:577-593 | A data line gives what its data parses to, with any blanks around line and data, and nothing if it is blank |
| EventLines.OtherLinePasses | crates/agent-framework-anthropic/src/lib.rs:577-593 | Any other line is passed over |
| EventLines.EventValueStream.Next | crates/agent-framework-anthropic/src/lib.rs:528-544 | Each poll gives the next item still to come, up to the first error |
| EventLines.ValuesYield | crates/agent-framework-anthropic/src/lib.rs:513-546 | Decoded events yield their updates in order, then the event error that ends them or else the transport's |
| Transports.PartCarriesEvents | crates/agent-framework-anthropic/src/lib.rs:576-593 | Any part of a framed stream from its start, cut at any character, carries exactly the events whose data lines it holds |
| Transports.ArrivedExactly | crates/agent-framework-anthropic/src/lib.rs:576-593 | An event has come with a part of the text if and only if its data line ends in it |
| Transports.OvertakenBy | crates/agent-framework-anthropic/src/lib.rs:564-606 | The updates an error event overtakes are those of the events its own chunk brought before it, and no others |
| Transports.UpdatesBetween | crates/agent-framework-anthropic/src/lib.rs:482-507 | Some events bring no update at all if and only if none of them brings one after those before it |
| Transports.TransportsAgree | crates/agent-framework-anthropic/src/lib.rs:482-618 | However the text is cut, and wherever in it the connection ends or breaks, both transports yield the same items of the events that came, if and only if no chunk completes the data line of the first error event together with that of an earlier event bringing an update |
| Transports.ErrorOvertakes | crates/agent-framework-anthropic/src/lib.rs:564-606 | The case that fails: an update and an error event in one chunk come out error first, and in order from decoded events |
| WireRoundTrips.MessageReads | crates/agent-framework-a2a/src/types.rs:134-149 | A message reads back field by field, its own kind included |
| WireRoundTrips.StatusReads | crates/agent-framework-a2a/src/types.rs:273-281 | A status reads back with its message and timestamp |
| WireRoundTrips.ArtifactReads | crates/agent-framework-a2a/src/types.rs:300-311 | An artifact reads back with its parts |
| WireRoundTrips.CarriedTaskReads | crates/agent-framework-a2a/src/types.rs:285-297 | Any object carrying an A2A task's fields, tagged or not, reads as that A2A task |
| WireRoundTrips.EventReads | crates/agent-framework-a2a/src/protocol.rs:75-102 | Every event reads back as its own variant, with its tag and by its shape alone; only null metadata, and without the tag a message's unusual kind, are lost |
| WireRoundTrips.ResultReads | crates/agent-framework-a2a/src/protocol.rs:58-70 | The same for every `message/send` result |
| WireRoundTrips.EventRoundTrips | crates/agent-framework-a2a/src/protocol.rs:75-102 | An event reads back exactly itself if and only if no metadata in it is null, and, with the tag removed, a message's kind is the default |
| WireRoundTrips.ResultRoundTrips | crates/agent-framework-a2a/src/protocol.rs:58-70 | The same for every `message/send` result |
| WireRoundTrips.NullMetadataIsLost | crates/agent-framework-a2a/src/types.rs:134-149 | The case that fails: a message whose metadata is the JSON null does not come back |
| WireRoundTrips.CleanEventIs | crates/agent-framework-a2a/src/types.rs:134-369 | Reading back changes nothing exactly when no metadata anywhere in the event is null |
| WireRoundTrips.ParsedEventRoundTrips | crates/agent-framework-a2a/src/protocol.rs:75-102 | Whatever JSON an event was read from, printing it and reading it again gives the same event |
| WireRoundTrips.ParsedResultRoundTrips | crates/agent-framework-a2a/src/protocol.rs:58-70 | The same for every `message/send` result |
| WireRoundTrips.NullInMessage | crates/agent-framework-a2a/src/types.rs:134-149 | An optional field of a message that is null reads as one left out |
| WireRoundTrips.NullInStatus | crates/agent-framework-a2a/src/types.rs:273-281 | So does one of a status |
| WireRoundTrips.NullInArtifact | crates/agent-framework-a2a/src/types.rs:300-311 | So does one of an artifact |
| WireRoundTrips.NullInTask | crates/agent-framework-a2a/src/types.rs:285-297 | So does one of an A2A task |
| WireRoundTrips.NullInUpdate | crates/agent-framework-a2a/src/types.rs:318-345 | So does the metadata of an update |
| WireRoundTrips.DefaultsAre | crates/agent-framework-a2a/src/types.rs:134-329 | A message without a kind is of kind `message`, and a status update without a final flag is not final |
| WireRoundTrips.ArtifactDefaultsAre | crates/agent-framework-a2a/src/types.rs:333-345 | An artifact update without a flag has it unset |
| WireRoundTrips.OddResponses | crates/agent-framework-a2a/src/protocol.rs:32-56 | A response with an error of another shape is an internal error, whatever else it holds; one with neither error nor result is a failure of its own |
| SseFrames.FrameData | crates/agent-framework-a2a/src/protocol.rs:129-143 | The accumulating loop gives the pieces of the data lines joined by line breaks, the empty ones before the first other dropped |
| SseFrames.ParseFrame | crates/agent-framework-a2a/src/protocol.rs:129-158 | A frame gives nothing without data that parses, else its event or error |
| SseFrames.DataOfFrame | crates/agent-framework-a2a/src/protocol.rs:129-143 | A frame's data is that of its data lines alone, with a space after the colon or without, whatever other lines stand before, between or after them |
| SseFrames.SilentFrame | crates/agent-framework-a2a/src/protocol.rs:144-146 | A frame with other lines only yields nothing |
| SseFrames.UnparsedFrame | crates/agent-framework-a2a/src/protocol.rs:147-153 | A frame whose data is no JSON yields nothing |
| SseFrames.SseState.DrainSseEvents | crates/agent-framework-a2a/src/protocol.rs:114-124 | The complete frames are taken off the buffer in order, and the partial one stays |
| SseFrames.SplitFramesAppend | crates/agent-framework-a2a/src/protocol.rs:114-124 | Draining what came so far and then the rest is draining all of it at once |
| SseFrames.SseState.Next | crates/agent-framework-a2a/src/client.rs:402-434 | Each poll gives the next item still to come, whichever chunk it arrives in |
| SseFrames.ChunksYieldWhole | crates/agent-framework-a2a/src/client.rs:387-436 | However the bytes are cut, the client yields the items of the frames of the whole text in order, then the connection's error |
| SseFrames.StreamSplits | crates/agent-framework-a2a/src/protocol.rs:114-124 | Frames of any lines, and any partial frame after them, are found again exactly |
| SseFrames.ArrivesExactly | crates/agent-framework-a2a/src/protocol.rs:129-143 | The text a frame's data lines hold arrives unchanged if and only if it starts with no line break and none of its lines ends in a carriage return |
| SseFrames.LeadingBreakIsLost | crates/agent-framework-a2a/src/protocol.rs:129-143 | The case that fails: a text that starts with a line break arrives without it |
| SseFrames.RepliesArrive | crates/agent-framework-a2a/src/protocol.rs:104-158 | What a server writes, with any other lines in its frames, silent frames between them and in any chunks, is what the client yields; a frame cut short yields nothing |
| A2AAgent.StoredExactly | crates/agent-framework-a2a/src/agent.rs:138-155 | What is persisted decodes to the state, if and only if the state is not empty or nothing was there to displace |
| A2AAgent.StaleTaskStays | crates/agent-framework-a2a/src/agent.rs:146-155 | The case that fails: after a task id alone, a message with neither id leaves that task id in the session |
| A2AAgent.UnreadableIsEmpty | crates/agent-framework-a2a/src/agent.rs:138-145 | A session with no text, or with one that is no JSON, no object or holds another type under either name, starts a new conversation |
| A2AAgent.StateAfterAll | crates/agent-framework-a2a/src/agent.rs:326-372 | After any events the state holds the last context any of them named and the last one's task id |
| A2AAgent.ContextKept | crates/agent-framework-a2a/src/agent.rs:138-155 | A known context is never lost, and once one is known what is stored decodes to exactly the folded state |
| A2AAgent.ContentSurvives | crates/agent-framework-a2a/src/agent.rs:525-649 | Content comes back from A2A unchanged if and only if it is text, a URI, or a data URI of its own media type |
| A2AAgent.FileSurvives | crates/agent-framework-a2a/src/agent.rs:610-649 | Inline bytes survive the way through a data URI if and only if the media type does not itself hold the marker |
| A2AAgent.ChatMessageToWire | crates/agent-framework-a2a/src/agent.rs:489-523 | The first content A2A cannot express fails the message; otherwise every content is a part, in order |
| A2AAgent.SentExactly | crates/agent-framework-a2a/src/agent.rs:489-572 | A message goes out if and only if it has contents and each has a part that stands for it, and then as exactly those parts, the user's, under its own id or a fresh one, in the stored conversation's context and task |
| A2AAgent.ReadExactly | crates/agent-framework-a2a/src/agent.rs:610-685 | A message or artifact converts if and only if each part stands for some content, and then to exactly those contents, under its role and id and with its metadata |
| A2AAgent.MessageSurvives | crates/agent-framework-a2a/src/agent.rs:489-675 | A message comes back as it went out if and only if it is the user's, has an id and no author, and all its contents survive |
| A2AAgent.ConvertsExactly | crates/agent-framework-a2a/src/agent.rs:622-685 | Messages and artifacts convert if and only if all the structured data in them can be written as text |
| A2AAgent.TaskToChatMessages | crates/agent-framework-a2a/src/agent.rs:706-729 | One message for each artifact, then the status message exactly when it has to be seen, and the end of the history only if there is nothing else; the first failing conversion fails all |
| A2AAgent.ShownExactly | crates/agent-framework-a2a/src/agent.rs:706-729 | The artifacts in order; then the status message exactly for a failed, rejected, canceled, input-required, auth-required or unknown state; and the last of the history exactly if that is nothing |
| A2ARuns.StreamEventToUpdates | crates/agent-framework-a2a/src/agent.rs:310-398 | One update for each message an event shows, at least one if it concerns an A2A task, and the state continued by its context and task ids |
| A2ARuns.EventTells | crates/agent-framework-a2a/src/agent.rs:310-422 | An event whose data converts yields, in order, an update with the contents, role and id of each message or artifact it shows, under the agent's name and the id of its message or task; one that shows none yields one bare update |
| A2ARuns.LastAnswerNames | crates/agent-framework-a2a/src/agent.rs:326-372 | After any answers the state names the last one's task, and its context unless it names none, for each kind of answer |
| A2ARuns.Run | crates/agent-framework-a2a/src/agent.rs:159-237 | The last message alone goes out, in the stored conversation; a run that fails leaves the session alone |
| A2ARuns.RunAsksOnly | crates/agent-framework-a2a/src/agent.rs:163-193 | A run's outcome depends on the remote agent only through its answer to the last message as sent in the stored context and task |
| A2ARuns.NextRunContinues | crates/agent-framework-a2a/src/agent.rs:159-226 | Across runs: after an answer naming a context and a task, the next run asks only with messages that name exactly these |
| A2ARuns.RunTells | crates/agent-framework-a2a/src/agent.rs:194-237 | An answered run succeeds if and only if all data of the answer converts; it then responds with what each message or artifact shown says, under the agent's name and the answer's id |
| A2ARuns.RunFails | crates/agent-framework-a2a/src/agent.rs:163-193 | A run without a message, with one that cannot be sent, or whose sending fails leaves the session alone |
| A2ARuns.NameMessages | crates/agent-framework-a2a/src/agent.rs:229-235 | Exactly the messages without an author take the agent's name |
| A2ARuns.A2AForward.PollInner | crates/agent-framework-a2a/src/agent.rs:458-468 | Taking one event or error changes neither the items still to come nor the final state |
| A2ARuns.A2AForward.Next | crates/agent-framework-a2a/src/agent.rs:446-471 | Each poll gives the next item still to come; the session is written only when nothing is left, with the folded state, and at most once |
| A2ARuns.Drain | crates/agent-framework-a2a/src/agent.rs:430-474 | Polled to its end, the stream yields all updates up to the inner stream's first error and then that error, and the session holds the folded state |
| A2ARuns.RunAndStreamAgree | crates/agent-framework-a2a/src/agent.rs:159-474 | A run and the stream of the same answer give the same messages under one response id, or the same failure; both store the same if and only if all data the answer shows can be written as text, or the state it leaves is nothing new |
| A2ARuns.StoreAlike | crates/agent-framework-a2a/src/agent.rs:159-474 | Where JSON can always be written, the run and the stream leave the same session |
| A2ARuns.FailedStreamStores | crates/agent-framework-a2a/src/agent.rs:194-227 | On the code's error branch for data that cannot be written, which no JSON value takes: the run stores nothing, and the stream stores the state all the same |
| A2ARuns.CutsDoNotMatter | crates/agent-framework-a2a/src/client.rs:387-436 | What a streamed run yields and persists depends on the bytes received, not on their chunks |
| A2ARuns.ServerRepliesRun | crates/agent-framework-a2a/src/agent.rs:430-474 | From a server's replies in any chunks to the updates and the stored state: nothing is lost, reordered or added before the first refusal or the connection's error |
| ChunkedBody.FindSubslice | examples/hosting/streaming_sse.rs:227-229 | The first place the needle stands, or none if it stands nowhere |
| ChunkedBody.ChunkDecoder.Feed | examples/hosting/streaming_sse.rs:242-269 | The loop decodes everything the bytes at hand allow and stops only where no progress is possible, or where a size plus two overflows, which ends the program |
| ChunkedBody.RunAppend | examples/hosting/streaming_sse.rs:242-269 | Until decoding stops, decoding in two feeds is decoding in one; from the end on, later bytes of the same feed count for nothing |
| ChunkedBody.StopsExactly | examples/hosting/streaming_sse.rs:242-269 | Decoding overflows if and only if, chunk after chunk, a size line is reached that announces more than the largest machine word less two; and it ends if and only if one is reached that announces zero |
| ChunkedBody.SizeLineParses | examples/hosting/streaming_sse.rs:250-252 | A size line of hexadecimal digits, in any case, with blanks and an extension, gives its size |
| ChunkedBody.PrintedSizeParses | examples/hosting/streaming_sse.rs:250-252 | A size printed in hexadecimal, in lower or upper case, is announced as that size |
| ChunkedBody.SignedSize | examples/hosting/streaming_sse.rs:250-252 | A plus sign before the digits counts for nothing |
| ChunkedBody.OddSizeEnds | examples/hosting/streaming_sse.rs:250-257 | A size line that is blank, or holds anything but digits, blanks and a plus sign before its extension, ends the body |
| ChunkedBody.ForeignSizeEnds | examples/hosting/streaming_sse.rs:250-257 | So does one that ends in a byte that is no ASCII |
| ChunkedBody.WholeBody | examples/hosting/streaming_sse.rs:242-269 | A well-formed body decodes to its payload and ends at its last size line, whatever follows in the same feed |
| ChunkedBody.OutputSoFar | examples/hosting/streaming_sse.rs:242-269 | Before the end, the output is exactly the chunks complete so far, and the decoder holds only bytes of the next, too few to go on |
| ChunkedBody.DecodeFeeds | examples/hosting/streaming_sse.rs:179-193 | Feeding a body piece by piece gives the concatenated outputs the neighbouring rows speak of, up to a crash |
| ChunkedBody.BodyInAnyFeeds | examples/hosting/streaming_sse.rs:242-269 | However a well-formed body is cut into feeds, none crashes and their outputs concatenate to its payload |
| ChunkedBody.CrashesExactly | examples/hosting/streaming_sse.rs:242-269 | Any feeds crash if and only if one of them, with what came since the last end, reaches an oversized size line |
| ChunkedBody.FeedsPastEnd | examples/hosting/streaming_sse.rs:242-269 | For any bytes in any feeds: output and crash are those up to the end of the feed with the last chunk, and then those of the later feeds decoded from nothing |
| ChunkedBody.SilentExactly | examples/hosting/streaming_sse.rs:242-269 | Feeds that do not crash decode to nothing if and only if each size line in them announces an end, which drops the rest of its feed, or more bytes than are still to come |
| ChunkedBody.EndKeptExactly | examples/hosting/streaming_sse.rs:242-269 | A body followed by any bytes, in any feeds, decodes to its payload and then to what the feeds after its end decode to; it crashes if and only if those reach an oversized size line, and otherwise stays the payload if and only if no chunk completes among them |
| ChunkedBody.EndIsForgotten | examples/hosting/streaming_sse.rs:253-257 | The case that fails: a second body in the same feed counts for nothing, and in the next feed it is decoded |

## Left out

- Features.Problems: says which problems are reported, not in which order or how often one is repeated.
- Report.Sections: the headings, the tables' layout and the per-type breakdown of the rows already counted are not modelled.
- TypeKeys.RoundTripExactly: parameter names are taken to be non-blank and free of blanks, commas and brackets, as generic parameter names are.
- Overloads.MatchesExactly: arities beyond the machine word, which no signature has, are excluded.
- ChunkedBody.ChunkDecoder.Feed: an overflow ends the program, as in builds that check for it; in others the slice that follows does, for the largest machine word one byte later.
- SseFrames.RepliesArrive: the JSON writer is any that parses back and writes non-empty text without leading line breaks or carriage returns at line ends.
- PauseTurns.PausedStream.Next: that ending the stream drops its state is modelled by its `done` flag.
- Non-ASCII letters, digits and white space in the ledger's and the decoders' text tests, and `to_lowercase` beyond ASCII in feature names.
- Tuples, pointers, multi-dimensional arrays and generic enclosing types inside a parameter: the two spellings of these are not equated by the code.
- Reading files, TOML, the Markdown table, `flatten`, `validate`, `xtask/src/index.rs` and the wording of error messages, which are datatypes here.
- JSON numbers are integers; an object is a map, so repeated keys are not modelled. Serde's other encodings, structs as arrays and unit variants as single-entry objects, are not either.
- Agent cards, push notifications and the parameters of `message/send`: plain fields without branches.
- What the Anthropic conversion code does with usage, hosted blocks, stop reasons and merged turns.
- HTTP, timeouts, authentication, card discovery and random ids; concurrency beyond one poll at a time.
- `TaskState::is_terminal`, `content_type_name` and the like, which are plain lookups.
- Workflows, compaction, retries and the other crates and examples.
