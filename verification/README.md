# tuishark: a verified model

tuishark is a terminal packet analyser. This project models the parts of it where state, arithmetic or text handling is
intricate, and proves what they are for. Verify everything with `dafny verify dfyconfig.toml`.

| file | what it models |
|---|---|
| `FilterAst`, `FilterLexer`, `FilterParser`, `FilterEval`, `Bits` | the display-filter language: tokenizer, recursive-descent parser, evaluator with CIDR masks |
| `FilterPrinter`, `FilterSpelling`, `FilterMeaning` | what the filter language is proved against: a printer, all documented spellings, and what comparisons mean |
| `DissectWorker`, `DissectRuns`, `DissectPending` | the handshake between the UI thread and the deep-dissection worker, as a transition system with one step per access to shared data |
| `CaptureView` | packet numbering in the capture thread, the bounded channel that may drop, the incrementally maintained filter index and the list view |
| `PathModel`, `PathLedger`, `PathAccounts`, `PathGrouping`, `PathAggregator` | grouping kernel path events into packet paths, with expiry, caps, early extraction and flush |
| `AiCache` | the LRU cache of explanations: a map and a queue |
| `BtfFormat`, `BtfLayout` | decoding Linux BPF Type Format data (section 2.2, "Type Encoding", of the kernel's BTF document) and flattening structures |
| `Calendar` | day counts to Gregorian dates |
| `PacketStore`, `Csv`, `JsonLine`, `Conversations` | the packet store and its iterator, and what is made from it: CSV (RFC 4180), JSON lines (RFC 8259), conversation statistics |
| `Session` | the packet list and the handshake driven by one user interface |
| `DetailTree` | the cursor of the packet-detail tree |
| `Prelude`, `Numerals`, `Reading` | shared datatypes, numerals, and what readers share |

How it is built. Loops, and objects whose methods update fields, are methods and classes here too; each is proved equal to
a function of its input or old state, or meets a property outright. The main results are lemmas about those functions,
over all inputs, all runs or all interleavings. Each has a partner that is defined without looking at the code: a grammar
for the parser, a printer and the documented spellings for its round trip, numbers, first differences and address ranks for
comparisons, longest runs of agreeing events for paths, division for the bit masks, a recency list for the cache, the encoding of the
BTF document for the decoder, paths through the type table for the layout, a calendar that steps day by day, readers of
RFC 4180 and RFC 8259 for the two outputs, and the drawn lines for the cursor.

Readers may not expect these findings, all of them proved:

- The grammar at the head of `parser.rs` lets `contains` take a quoted string only; the code accepts numbers as well
  (`NumberNeedleIsParsed`), and that is the only difference token lists can show (`DocumentedIff`). The two lookahead tests
  of the parser never matter: what the plain grammar derives is accepted with the same result (`ParsesExactlyTheGrammar`).
- `f != v` is not in general the opposite of `f == v`. `port != 80` holds of a packet to port 80 from another port
  (`OnePortOfTwo`), and both tests fail when the packet lacks the field (`NoPorts`). `NotEqualIsOppositeIff` says exactly when they are opposites; for a CIDR
  value on a single address they always are.
- Addresses are ordered as numbers but equal as texts, so with two spellings of one address `<=` holds although neither `<`
  nor `==` does (`TwoSpellingsCompare`, with the exact condition in `AddressComparisonsFitIff`).
- Deep dissection stays pending for good exactly if the answer to the last request is missed (`PendsForGoodIffMissed`): the
  worker is replaced meanwhile, or the answer is drained while another packet, or none, is selected (`MissedOnlySo`).
  Clearing the selection by a filter without matches, replacing the worker, and selecting a position the store has not
  reached can each lead there from every pending state whose worker goes on (`LosingTrackCanPendForGood`). The last of these also puts a deep
  detail beside another packet (`SelectingAheadGoesWrong`). Without these steps neither happens
  (`OnlySelectsNeverPendsForGood`, `DeepDetailIsOwn`), and in a session without drops every deep detail is the selected
  packet's (`DeepDetailIsOfSelected`).
- A position the store has not reached is selected only after the capture channel has dropped a packet
  (`NoDropSelectsStored`): following the tail under a filter selects the last packet's number, which drops have pushed
  beyond the store (`AfterDropCanSelectAhead`).
- Once the capture channel has dropped a packet, packet numbers and store positions differ, and the incremental filter
  index no longer equals a rebuild. `AgreesIffNumbersArePositions` says exactly when it does. Sortedness survives drops, but
  not a further capture started afterwards (`OrderBreaksAfterDrop`).
- A packet and its reply are one conversation, except for two spellings of one address at one port
  (`ReverseSharesKeyIff`). Dissection prints addresses in one way only, so this does not arise (`CanonicalEndsShareKey`).
- Moving down from the last field of the last layer jumps back to that layer's header (`MoveDown`).
- Collapsing one of two layers with one key is remembered for both but shown for one (`ToggleIsRememberedIff`).
- A BTF member offset wraps if the bit offsets on its path exceed 32 bits, and layouts nested deeper than 32 lose members
  (`OddTableGoesWrong`, with the exact conditions in `OffsetIsExactIff` and `CompleteIffShallow`). An anonymous member whose
  type is a typedef or a qualifier contributes nothing (`LayoutMissesModifiers`).

## Model

| member | source | states |
|---|---|---|
| FilterParser.LastSlash | tuishark/src/filter/parser.rs:301-301 | the text is split at its last `/`, and not at all if it has none |
| FilterParser.ParseOrAt | tuishark/src/filter/parser.rs:179-187 | the loop over `or` from any token on reports exactly the specified outcome, position included |
| FilterParser.ParseAndAt | tuishark/src/filter/parser.rs:189-197 | the same for `and` |
| FilterParser.ParseNotAt | tuishark/src/filter/parser.rs:199-206 | the same for prefix `not` |
| FilterParser.ParsePrimaryAt | tuishark/src/filter/parser.rs:208-297 | the same for parentheses, bare protocols, bare boolean fields, `contains` and comparisons, with every error branch |
| FilterParser.ParseTokenList | tuishark/src/filter/parser.rs:39-50 | the empty filter and left-over tokens are errors; otherwise the outcome of the outermost level |
| FilterParser.ParseOr | tuishark/src/filter/parser.rs:179-187 | every success consumes at least one token and stays inside the list, which is why the four mutually recursive levels terminate |
| FilterParser.OrSound | tuishark/src/filter/parser.rs:179-187 | whatever the parser accepts at any position is derivable there |
| FilterParser.OrComplete | tuishark/src/filter/parser.rs:179-187 | whatever is derivable is accepted, as the same expression, in front of any token that does not extend it |
| FilterParser.ParsesExactlyTheGrammar | tuishark/src/filter/parser.rs:208-297 | a token list is parsed to `e` if and only if the grammar that also allows a number after `contains` derives `e` from it; the two lookahead tests neither reject nor change a derivable list |
| FilterParser.DocumentedIff | tuishark/src/filter/parser.rs:3-12 | the documented grammar derives exactly what is parsed from token lists with no number directly after `contains`; tokens do not tell whether a string was quoted, so an unquoted word there counts as a string |
| FilterParser.GrammarIsUnambiguous | tuishark/src/filter/parser.rs:3-12 | a token list derives at most one expression |
| FilterLexer.Tokenize | tuishark/src/filter/parser.rs:52-177 | the tokenizing loop yields exactly the token list (or first error) of the specification |
| FilterLexer.ScanAt | tuishark/src/filter/parser.rs:55-174 | one round of the loop: white space, parentheses, two- and one-character operators, quoted strings, words, errors |
| FilterLexer.WordEnd | tuishark/src/filter/parser.rs:114-120 | a word is the maximal run of word characters |
| FilterLexer.QuoteEnd | tuishark/src/filter/parser.rs:97-111 | a quoted string ends at the first quotation mark, or nowhere |
| FilterLexer.FieldNameReads | tuishark/src/filter/parser.rs:120-152 | every field has a spelling the tokenizer reads as that field |
| FilterLexer.LexSpaced | tuishark/src/filter/parser.rs:52-177 | any printable token list, written apart by blanks, is tokenized back to itself |
| FilterLexer.LexedArePrintable | tuishark/src/filter/parser.rs:52-177 | no token of any input holds a quotation mark |
| FilterPrinter.Parse | tuishark/src/filter/parser.rs:39-50 | `parse` is the tokenizer followed by the parser |
| FilterPrinter.CidrTextReads | tuishark/src/filter/parser.rs:299-311 | the text of an address, `/` and a prefix no longer than the family allows is read as that CIDR value |
| FilterPrinter.StringValueIff | tuishark/src/filter/parser.rs:299-311 | a string value stays a string if and only if it is not an address, a last slash and a prefix length the address admits |
| FilterPrinter.ParseUndoesShow | tuishark/src/filter/parser.rs:39-311 | round trip: the parser reads the minimally parenthesised text of every expressible filter as exactly that filter |
| FilterPrinter.ParsedIffProper | tuishark/src/filter/parser.rs:39-311 | an expression is the parse of some text if and only if it is expressible (known lower-case protocol names, boolean bare fields, lower-case needles, no quotation marks, string values that are not CIDR texts) |
| FilterPrinter.ShowIsShortest | tuishark/src/filter/parser.rs:39-311 | no printable token list that parses to `e` is shorter than the printed one, so the parentheses are the fewest possible |
| FilterPrinter.NumberNeedleIsParsed | tuishark/src/filter/parser.rs:269-271 | every text like `info contains 5` is parsed, although the documented grammar derives nothing from its tokens |
| FilterPrinter.ReprintKeepsMeaning | tuishark/src/filter/parser.rs:39-311 | printing what was parsed and parsing again gives the same expression |
| FilterPrinter.SomePlatformIsLawful | tuishark/src/filter/parser.rs:299-311 | the laws assumed of address text and character classes can be met |
| FilterSpelling.EverySpellingIsRead | tuishark/src/filter/parser.rs:52-177 | however a token list is spelled, with whatever white space between, it is tokenized as that list: signs as well as words for and, or and not, every documented name of a field in any letter case, numbers in both bases, quoted and plain strings |
| FilterSpelling.EverySpellingParses | tuishark/src/filter/parser.rs:39-311 | and so every spelling of an expressible filter parses to exactly that filter |
| FilterSpelling.ReadTokenIsSpelled | tuishark/src/filter/parser.rs:52-177 | whatever the tokenizer reads, the text read spells the token it is read as |
| FilterSpelling.OnlySpellingsAreRead | tuishark/src/filter/parser.rs:52-177 | a text that is tokenized is nothing but spellings of its tokens and white space |
| FilterSpelling.LowerIsLetterByLetter | tuishark/src/filter/parser.rs:120-120 | names are compared with capitals as small letters and all else unchanged |
| FilterEval.InSubnetIffSamePrefix | tuishark/src/filter/eval.rs:182-199 | the mask test, in 32 and in 128 bits, holds if and only if both addresses are of one family and agree after division by 2^(width - prefix) |
| FilterEval.CidrIsPrefixEquality | tuishark/src/filter/eval.rs:179-205 | the whole CIDR comparison: `==` is having the leading bits of the network, `!=` its exact complement, the orderings never hold |
| FilterEval.ShorterPrefixIsWider | tuishark/src/filter/eval.rs:182-199 | an address in a subnet is in every wider subnet of the same network |
| FilterEval.BareFormsDesugar | tuishark/src/filter/eval.rs:8-55 | a bare flag, tested by its mask, is the flag compared `!= 0` after its shift, and a bare protocol is `proto ==` it |
| FilterEval.ContainsIsSubstring | tuishark/src/filter/eval.rs:160-177 | the window search holds if and only if the lower-cased text has the needle as a substring |
| FilterEval.ContainsLooksIntoTexts | tuishark/src/filter/eval.rs:107-177 | `f contains n` holds if and only if one of the texts that belong to the field has the needle as a substring, ignoring its case; never for a field without text |
| FilterEval.TextComparisonsFit | tuishark/src/filter/eval.rs:224-262 | of text comparisons just one of `<`, `==`, `>` holds, and `<=`, `>=`, `!=` fit, if and only if the value is not a CIDR |
| FilterEval.NumberComparisonsFit | tuishark/src/filter/eval.rs:272-289 | number comparisons fit together if and only if the value is a number or a numeral |
| FilterEval.AddressComparisonsFitIff | tuishark/src/filter/eval.rs:179-221 | over all values, address comparisons fit together if and only if the value is not a CIDR and, for two addresses, being one address and being one text, ignoring case, come to the same |
| FilterEval.TwoSpellingsCompare | tuishark/src/filter/eval.rs:207-221 | for every two spellings of one address `<=` and `>=` hold, and none of `<`, `>` and `==` does |
| FilterEval.NotEqualIsOppositeIff | tuishark/src/filter/eval.rs:32-104 | `f != v` is the opposite of `f == v` if and only if all values of the packet that can be compared with `v` give one and the same answer, and there is at least one |
| FilterEval.OnePortOfTwo | tuishark/src/filter/eval.rs:39-39 | both `port == n` and `port != n` hold of every packet between port n and another one |
| FilterEval.NoPorts | tuishark/src/filter/eval.rs:264-270 | no port comparison holds of a packet without ports |
| FilterMeaning.ComparisonMeans | tuishark/src/filter/eval.rs:32-302 | a comparison, of any field and all six operators, holds if and only if it holds of one of the values the field stands for: numbers as numbers, texts at their first difference ignoring case, addresses by rank (IPv4 first) or by network, protocols by name |
| FilterMeaning.LengthMeans | tuishark/src/filter/eval.rs:272-289 | `len op m` is `originalLength op m`, for all six operators |
| FilterMeaning.PortMeans | tuishark/src/filter/eval.rs:264-289 | `port op m` is `p op m` for one of the packet's ports p |
| FilterMeaning.StrLessIsBefore | tuishark/src/filter/eval.rs:224-262 | the order of texts is that of the first character in which they differ, a beginning coming first |
| FilterMeaning.FlagFieldMeans | tuishark/src/filter/eval.rs:59-64 | a flag field compares as the one bit the TCP header has for it, 0 or 1 |
| FilterMeaning.BareFormsMean | tuishark/src/filter/eval.rs:8-30 | a bare protocol holds of packets of a protocol with that name, a bare flag of those that carry it |
| FilterMeaning.KnownIffNamed | tuishark/src/dissect/model.rs:268-316 | a word alone is a filter if and only if one of the protocols the program names matches it |
| FilterMeaning.ShownNameMatches | tuishark/src/dissect/model.rs:268-384 | what a packet's protocol is shown as, typed in as a filter, matches that protocol |
| CaptureView.BooleanRows | tuishark/src/filter/eval.rs:14-16 | the rows listed for `a and b`, `a or b` and `not a` are the intersection, the union and the complement of those listed for `a` and `b` |
| DissectWorker.AcceptAllKeeps | tuishark/src/app.rs:638-662 | draining any list of replies changes only the shown detail and its state, shows only the asked packet, and ends the wait if the newest request is among them |
| DissectWorker.NextKeepsInv | tuishark/src/dissect/worker.rs:75-150 | every atomic step of either thread keeps the protocol invariant |
| DissectWorker.AfterKeepsInv | tuishark/src/dissect/worker.rs:75-150 | the invariant holds after every interleaving of the two threads |
| DissectRuns.NewestIsNeverSkipped | tuishark/src/dissect/worker.rs:100-103 | in every interleaving the stale test passes the request with the newest sequence number |
| DissectRuns.DissectsIffLatest | tuishark/src/dissect/worker.rs:100-103 | in every interleaving a compared request is dissected if and only if no later number has been stored by then, and is dropped without a reply otherwise |
| DissectRuns.SelectingAsks | tuishark/src/app.rs:1799-1836 | selecting a stored packet with a live worker shows its fast detail and sends one request with its position, its bytes and a number above all others |
| DissectRuns.WorkersHaveDissectors | tuishark/src/dissect/worker.rs:119-149 | in every interleaving a worker that waits for or holds a request has a dissector |
| DissectRuns.RepliesIff | tuishark/src/dissect/worker.rs:94-150 | just four steps of the worker reply, each once and about the request it holds; only a dissection gives a detail, of that request's bytes |
| DissectRuns.GivesUpIffThirdTimeout | tuishark/src/dissect/worker.rs:119-149 | in every interleaving the worker gives up at the third timeout in a row and restarts at any before it |
| DissectPending.DrainEndsWaitIff | tuishark/src/app.rs:638-662 | in every interleaving, a drain that collects the answer to the last request from a live worker ends the wait if and only if the packet asked for is the selected one |
| DissectPending.MissedOnlySo | tuishark/src/app.rs:618-663 | an awaited answer comes to be missed if and only if the worker is replaced, or a drain collects it from a live worker while another packet, or none, is selected |
| DissectPending.PendsForGoodIffMissed | tuishark/src/app.rs:618-663 | in every interleaving, a system at rest (no worker, or empty channels and a waiting worker) is left pending if and only if the answer to the last request has been missed |
| DissectPending.OnlySelectsNeverPendsForGood | tuishark/src/app.rs:618-663 | if only packets in the store are selected, the selection is never cleared, and only opening a file replaces the worker, then no system at rest is pending, in any interleaving |
| DissectPending.LosingTrackCanPendForGood | tuishark/src/app.rs:497-502 | from every pending state whose worker goes on, clearing the selection, replacing the worker, or selecting a position the store has not reached can each leave the packet pending for good |
| DissectPending.SomethingIsPending | tuishark/src/app.rs:1823-1836 | such states are reached |
| DissectRuns.DeepDetailIsOfAsked | tuishark/src/app.rs:638-655 | a detail shown as deep is the deep dissection of the packet last asked for; for a selected packet in the store it is its own if and only if the bytes agree |
| DissectRuns.DeepDetailIsOwn | tuishark/src/app.rs:638-655 | if only packets in the store are ever selected, a detail shown as deep is the selected packet's own deep detail, in every interleaving |
| DissectRuns.ShownDetailIsOwn | tuishark/src/app.rs:1799-1836 | if only packets in the store are ever selected, then at every moment, fast, pending or deep, a detail is shown and it is made from the selected packet's own bytes; while pending it is the fast one |
| Session.DeepDetailIsOfSelected | tuishark/src/app.rs:618-663 | list and handshake together: in every session in which the capture drops no packet, with any filters, moves and interleaving, a detail shown as deep is the deep detail of the packet selected in the list |
| Session.ShownDetailIsOfSelected | tuishark/src/app.rs:1799-1836 | the same over whole sessions without drops: in all three states of dissection the detail shown is of the packet selected in the list |
| Session.NewPacketsGetNewWorker | tuishark/src/app.rs:487-502 | a capture that is started and a file that is opened, and nothing else in the list, get a worker of their own, with no request or reply of the old one left |
| Session.PlayIsJoined | tuishark/src/app.rs:532-616 | in such a session both have the same packets and the same one selected, and only packets in the store are selected |
| DissectRuns.SelectingAheadGoesWrong | tuishark/src/app.rs:1799-1836 | from every state that shows a deep detail, selecting any position the store has not reached (as happens after drops, see CaptureView.AfterDropCanSelectAhead) can end with another packet selected beside that detail |
| DissectRuns.SomeDeepDetail | tuishark/src/app.rs:638-655 | such states are reached |
| DissectRuns.StopsByThirdTimeout | tuishark/src/dissect/worker.rs:119-149 | no interleaving lets the worker dissect again after three timeouts in a row; after the third it can only give up |
| DissectRuns.DeadWorkerIsNoticed | tuishark/src/app.rs:632-636 | once a drain sees the worker gone, no packet stays pending |
| CaptureView.PacketView.constructor | tuishark/src/app.rs:315-318 | a new view is empty and unfiltered |
| CaptureView.PacketView.DrainCapture | tuishark/src/app.rs:543-616 | one drain takes at most 1000 queued packets, appends them and their numbers where they match, and follows the tail |
| CaptureView.PacketView.SelectIndex | tuishark/src/app.rs:1799-1845 | the index is selected, and scrolling moves by as little as brings its row, if it is listed, into the window |
| CaptureView.PacketView.MoveBy | tuishark/src/app.rs:1358-1391 | in a list in order, from row p the key for n rows down ends at min(p + n, last), up at max(p - n, 0), the ends at 0 and the last row, and down or up without a listed selection at 0; that row is then selected and visible |
| CaptureView.MoveShowsItsRow | tuishark/src/app.rs:1358-1391 | the same law of the keys, about the selected rows before and after only |
| CaptureView.FollowShowsTheLastRow | tuishark/src/app.rs:594-604 | following the tail selects the last row of the list, and it is visible |
| CaptureView.FilterShowsTheFirstMatch | tuishark/src/app.rs:2307-2333 | a new filter lists exactly the matching positions and selects the first row, or nothing; a text that is no filter leaves the selection |
| CaptureView.OpenShowsTheFirstPacket | tuishark/src/app.rs:1945-2010 | an opened file is shown unfiltered with its first packet selected |
| CaptureView.PacketView.RebuildFilteredIndices | tuishark/src/app.rs:2346-2360 | the rebuild loop lists the matching positions |
| CaptureView.PacketView.ApplyFilterText | tuishark/src/app.rs:2307-2333 | a filter text is parsed; on success the index is rebuilt and the first match selected, on failure the filter is off |
| CaptureView.FindPosition | tuishark/src/app.rs:2384-2390 | the binary search loop |
| CaptureView.RebuildListsMatches | tuishark/src/app.rs:2346-2360 | a rebuild lists a position if and only if the packet there matches |
| CaptureView.AfterIsIncremental | tuishark/src/app.rs:545-556 | after any run the index is the last rebuild followed by the numbers of the matching packets received since |
| CaptureView.AgreesIffNumbersArePositions | tuishark/src/app.rs:545-556 | index agreement: the incremental index equals what a rebuild would compute if and only if every matching packet received since the last rebuild has its store position as its number |
| CaptureView.NoDropAgrees | tuishark/src/app.rs:545-556 | while no packet has been dropped, the two agree after every run |
| CaptureView.AfterIsNumbered | tuishark/src/capture/live.rs:157-184 | the capture's next number is the store length plus the queue plus the drops, and queued numbers increase |
| CaptureView.StaysIncreasing | tuishark/src/capture/live.rs:157-184 | even with drops the index is strictly increasing, as binary search needs, while captures start with an index that holds store positions only |
| CaptureView.UncleanStartBreaksOrder | tuishark/src/capture/live.rs:157-184 | without that condition the first matching packet of a new capture breaks the order |
| CaptureView.OrderBreaksAfterDrop | tuishark/src/capture/live.rs:157-184 | and that happens: a run with a full channel, one drop and a second capture ends with an index that is not increasing |
| CaptureView.NoDropSelectsStored | tuishark/src/app.rs:594-604 | while no packet has been dropped, only packets in the store are ever selected |
| CaptureView.AfterDropCanSelectAhead | tuishark/src/app.rs:594-604 | from every state whose capture has dropped a packet, filtering and following the tail can select a position the store has not reached |
| CaptureView.DropHappens | tuishark/src/capture/live.rs:181-184 | such states are reached |
| CaptureView.DropsIffFull | tuishark/src/capture/live.rs:157-184 | a packet is dropped if and only if the channel holds 10000; it takes a number either way |
| CaptureView.StoppedCaptureAddsNothing | tuishark/src/app.rs:522-530 | after a capture is stopped no run without a new capture or file changes the packets |
| CaptureView.SearchFinds | tuishark/src/app.rs:2384-2390 | on an increasing list the search finds the element if and only if it is there |
| CaptureView.RowRoundTrip | tuishark/src/app.rs:2371-2390 | mapping a row to a packet and back gives the row, for every row of the view |
| CaptureView.SelectedRowIsVisible | tuishark/src/app.rs:1838-1845 | after selecting what a row shows, that row is inside the window |
| PathModel.SortSorts | tuishark/src/trace/path_aggregator.rs:126-127 | hops are in order of time |
| PathModel.SortIsStable | tuishark/src/trace/path_aggregator.rs:126-127 | events at one moment keep their order |
| PathModel.StableSortIsUnique | tuishark/src/trace/path_aggregator.rs:126-127 | sortedness and stability leave only one result |
| PathModel.PathTellsItsEvents | tuishark/src/trace/path_aggregator.rs:121-153 | a built path has one hop per event; its deltas start at 0, never decrease and end at the total time; its last time is that of the latest event, and its flow is the earliest event's |
| PathLedger.ApplyKeepsGood | tuishark/src/trace/path_aggregator.rs:34-205 | every operation, with every order the hash map may yield, keeps the books: per buffer, finished groups followed by pending events are the ingested events in order |
| PathLedger.RunKeepsGood | tuishark/src/trace/path_aggregator.rs:34-205 | so does every run |
| PathAccounts.EveryEventAccounted | tuishark/src/trace/path_aggregator.rs:34-205 | conservation: after any run every event is, as often as it was ingested, in the pending, completed, handed-out and dropped paths together |
| PathAccounts.EveryPathIsOnePacket | tuishark/src/trace/path_aggregator.rs:48-63 | every pending, completed, handed-out or dropped path is of one buffer, source, destination and protocol |
| PathAccounts.OnlyTheCapLoses | tuishark/src/trace/path_aggregator.rs:114-117 | the only loss of any operation is the front 5000 of the completed list, in an ingest, if and only if it sweeps and the list has then more than 10000; dropped and completed together grow by exactly the paths finished |
| PathAccounts.SweepFinishesExactlyTheStale | tuishark/src/trace/path_aggregator.rs:83-95 | a sweep finishes exactly the paths quiet for 50 milliseconds |
| PathAccounts.CapFinishesTheOldest | tuishark/src/trace/path_aggregator.rs:99-112 | an over-full pending map finishes exactly 5000 paths, none updated later than any that stays |
| PathAccounts.FlushFinishesAll | tuishark/src/trace/path_aggregator.rs:198-205 | after a flush nothing is pending |
| PathAccounts.BatchSweepsIff | tuishark/src/trace/path_aggregator.rs:68-118 | a batch sweeps if and only if 20 milliseconds have passed since the last sweep; then just the paths not quiet for 50 milliseconds stay, or all but the 5000 oldest of them if more than 10000 |
| PathGrouping.AgreeingEventJoins | tuishark/src/trace/path_aggregator.rs:38-66 | an event that agrees in source, destination and protocol with its buffer's pending events finishes nothing and is appended to them |
| PathGrouping.DisagreeingEventSplits | tuishark/src/trace/path_aggregator.rs:48-66 | one that disagrees finishes exactly those events and is pending alone |
| PathGrouping.GroupsAreLongestRuns | tuishark/src/trace/path_aggregator.rs:38-66 | over every run without a sweep, flush or extraction, the groups of a buffer are its events in order, cut exactly where source, destination or protocol changes |
| PathAggregator.PathAggregator.constructor | tuishark/src/trace/path_aggregator.rs:25-31 | a new aggregator is empty |
| PathAggregator.PathAggregator.Push | tuishark/src/trace/path_aggregator.rs:59-61 | a finished group becomes a completed path unless it is empty |
| PathAggregator.PathAggregator.IngestEvent | tuishark/src/trace/path_aggregator.rs:38-66 | one event: reuse of a buffer finishes the old path and starts a new one |
| PathAggregator.PathAggregator.IngestBatch | tuishark/src/trace/path_aggregator.rs:34-74 | a batch, and the sweep if 20 milliseconds have passed, is the machine's ingest step with an order that the map may yield |
| PathAggregator.PathAggregator.ExpirePaths | tuishark/src/trace/path_aggregator.rs:80-118 | the stale are finished, then the oldest 5000 if too many are pending, then the completed list is capped |
| PathAggregator.PathAggregator.DropFront | tuishark/src/trace/path_aggregator.rs:115-117 | the completed list loses its front 5000 if it has more than 10000 |
| PathAggregator.PathAggregator.DrainCompleted | tuishark/src/trace/path_aggregator.rs:156-158 | all completed paths are handed out, in order, once |
| PathAggregator.PathAggregator.FindBest | tuishark/src/trace/path_aggregator.rs:171-187 | the scan finds a pending path of the flow, in either direction, with the most events, or none if there is none |
| PathAggregator.PathAggregator.TryExtractPending | tuishark/src/trace/path_aggregator.rs:167-195 | exactly that path is taken out, built and returned, and nothing changes when there is none |
| PathAggregator.PathAggregator.FlushAll | tuishark/src/trace/path_aggregator.rs:198-205 | all pending paths are finished |
| PathAggregator.PathsOfMaps | tuishark/src/trace/path_aggregator.rs:121-153 | the completed list has one path per finished group, in order |
| PathAggregator.SortByAge | tuishark/src/trace/path_aggregator.rs:100-101 | the entries by time of last update |
| PathAggregator.MatchToPackets | tuishark/src/trace/path_aggregator.rs:211-239 | the two lookup maps give the nested-loop meaning: per path the last packet of its flow, else the last of the reversed flow, in path order |
| PathAggregator.LastWithIsLast | tuishark/src/trace/path_aggregator.rs:223-228 | the entry meant is one with the flow such that no later entry has it |
| PathAggregator.PacketForIsMeant | tuishark/src/trace/path_aggregator.rs:223-236 | a path goes to the packet of the last entry with the same ends; only if there is none, to the last with the ends exchanged |
| PathAggregator.MatchedInOrder | tuishark/src/trace/path_aggregator.rs:211-239 | the pairs are, in path order, exactly the paths for which a packet is meant, with that packet |
| PathLedger.ExtractionIgnoresDirection | tuishark/src/trace/model.rs:43-52 | asking for a flow or for its reverse finds the same best paths |
| PathLedger.FlowIsFiveTuple | tuishark/src/trace/path_aggregator.rs:167-187 | a pending path is of a flow if addresses, ports and protocol of its first event are the flow's, in either direction |
| AiCache.AiCache.constructor | tuishark/src/ai/model.rs:90-96 | capacity 0 counts as 1 |
| AiCache.AiCache.Clear | tuishark/src/ai/model.rs:98-101 | forgets everything |
| AiCache.AiCache.TouchPacket | tuishark/src/ai/model.rs:103-108 | the packet moves to the back of the queue, or is added there |
| AiCache.AiCache.EvictWhileFull | tuishark/src/ai/model.rs:110-118 | the eviction loop |
| AiCache.AiCache.EnsureEntryFor | tuishark/src/ai/model.rs:120-127 | room is made only for a packet without an entry, and the packet is used |
| AiCache.AiCache.GetWhole | tuishark/src/ai/model.rs:129-137 | answers, and uses the packet only if it is cached |
| AiCache.AiCache.GetField | tuishark/src/ai/model.rs:139-152 | the same for a layer or field |
| AiCache.AiCache.InsertWhole | tuishark/src/ai/model.rs:154-157 | stores the explanation of a packet |
| AiCache.AiCache.InsertField | tuishark/src/ai/model.rs:159-168 | stores the explanation of a layer or field |
| AiCache.EvictsAtMostOne | tuishark/src/ai/model.rs:110-118 | in every cache that is in step the loop evicts the least recent packet if the cache is full, and nothing else |
| AiCache.RunInStep | tuishark/src/ai/model.rs:84-168 | after any history the queue lists exactly the cached packets, each once, no more than the capacity |
| AiCache.RunIsRecencyList | tuishark/src/ai/model.rs:103-168 | after any history the queue is the recency list of the uses made, cut off at the capacity |
| AiCache.CachedIffRecentlyUsed | tuishark/src/ai/model.rs:103-168 | a packet is cached if and only if fewer than `capacity` other packets have been used since its own last use |
| AiCache.HitIsLastInserted | tuishark/src/ai/model.rs:129-168 | a query answers with a text if and only if that text was the last inserted for the slot and the packet has been cached ever since |
| AiCache.RunsIncluded | tuishark/src/ai/model.rs:89-168 | after the same calls a smaller cache is within a larger one, entry by entry |
| AiCache.LargerCacheAnswersMore | tuishark/src/ai/model.rs:89-168 | inclusion: the smaller queue is a subsequence of the larger one, and every answer of the smaller cache is also the larger one's |
| BtfFormat.ReadMemberList | tuishark/src/trace/btf.rs:188-199 | the member loop, cut off at the end of the type section |
| BtfFormat.ParseTypeAt | tuishark/src/trace/btf.rs:176-234 | one type: header, members, or the data to skip; unknown kinds with data are an error |
| BtfFormat.ParseTypes | tuishark/src/trace/btf.rs:172-234 | the loop over the type section |
| BtfFormat.Parse | tuishark/src/trace/btf.rs:159-237 | header checks, then the loop; in bounds and terminating on all bytes |
| BtfFormat.MemberReads | tuishark/src/trace/btf.rs:192-198 | a member is read back from its 12 bytes, with the bit-field size split off where the flag says so |
| BtfFormat.OneTypeReads | tuishark/src/trace/btf.rs:176-234 | any type of kinds 1 to 19 laid out as the format says is read back, and the position moves behind it |
| BtfFormat.ParseInvertsEncoding | tuishark/src/trace/btf.rs:159-237 | decoding inverts encoding for every list of types: as many types, in the same positions, with the same name, kind, flag, size and members |
| BtfFormat.ParseUndoesEncodeFile | tuishark/src/trace/btf.rs:159-237 | for every list of types and every string section that fit, parsing the encoded file, header included, gives exactly them |
| BtfFormat.ParsedFilesAreSound | tuishark/src/trace/btf.rs:159-172 | what is accepted begins with the magic number and has both sections inside the data |
| BtfFormat.RefusedIffUnknown | tuishark/src/trace/btf.rs:212-231 | a type is refused if and only if its kind is above 19 and its length is not 0 |
| BtfLayout.NulFrom | tuishark/src/trace/btf.rs:244-248 | a string ends at the first zero byte or the end of the section |
| BtfLayout.NameReads | tuishark/src/trace/btf.rs:239-250 | a name written into the string section, up to its zero byte or the end, is read back whole |
| BtfLayout.BadNamesAreEmpty | tuishark/src/trace/btf.rs:239-250 | an offset past the section, and bytes that are not UTF-8, name nothing |
| BtfLayout.CollectMembers | tuishark/src/trace/btf.rs:263-282 | the recursion that pushes to one result yields the specified fields, and terminates on every table, cyclic ones included |
| BtfLayout.StructMembers | tuishark/src/trace/btf.rs:252-261 | the first structure or union of the name is laid out; an error if and only if there is none |
| BtfLayout.FindOffset | tuishark/src/trace/btf.rs:127-133 | the offset of the first member of the name; an error if and only if there is none |
| BtfLayout.CollectFollowsPaths | tuishark/src/trace/btf.rs:263-282 | every collected field is at the end of a path through anonymous members, at the sum of the bit offsets on it |
| BtfLayout.ListedIffPath | tuishark/src/trace/btf.rs:263-282 | a path is listed if and only if it exists and is short enough |
| BtfLayout.PathsAreInOrder | tuishark/src/trace/btf.rs:263-282 | paths are listed in declaration order |
| BtfLayout.LayoutIsAllPaths | tuishark/src/trace/btf.rs:252-282 | the layout is all named members, in declaration order, once per path of at most 32 anonymous members, each at the sum of the bit offsets (in 32 bits) divided by 8 |
| BtfLayout.CompleteIffShallow | tuishark/src/trace/btf.rs:264-266 | the depth limit loses nothing if and only if anonymous members are nested at most 32 deep |
| BtfLayout.SelfNestingLosesMembers | tuishark/src/trace/btf.rs:264-266 | every structure that contains itself anonymously beside a named member has members the limit loses |
| BtfLayout.OffsetIsExactIff | tuishark/src/trace/btf.rs:270-279 | an offset is the true one if and only if the sum of the bit offsets does not leave 32 bits |
| BtfLayout.FarNestingWraps | tuishark/src/trace/btf.rs:270-279 | two nested members whose bit offsets add up to 2^32 or more are given a wrong offset |
| BtfLayout.OddTableGoesWrong | tuishark/src/trace/btf.rs:263-282 | a table in which both happen |
| BtfLayout.PathIffNoModifier | tuishark/src/trace/btf.rs:272-275 | the paths followed are exactly the ways to named members on which no anonymous member has a typedef, const, volatile, restrict or type tag as its type |
| BtfLayout.LayoutMissesModifiers | tuishark/src/trace/btf.rs:159-282 | so the layout in every parsed table lacks, up to the depth limit, just the members that stand behind such a modifier |
| BtfLayout.FoundIsFirstPath | tuishark/src/trace/btf.rs:127-133 | the member found by name is the first of that name in declaration order |
| Calendar.YearOfEraIsRight | tuishark/src/export/mod.rs:50-52 | the closed formula for the year of the era is right on every day of an era |
| Calendar.NextDate | tuishark/src/export/mod.rs:46-58 | the date of day n + 1 is the calendar's next day after that of day n, and dates are valid |
| Calendar.ConversionFollowsTheCalendar | tuishark/src/export/mod.rs:46-58 | for every day count without overflow the date is the one reached by stepping day by day from 1970-01-01 |
| Calendar.ConversionReadsBack | tuishark/src/export/mod.rs:46-58 | counting the days of the converted date gives the day count back |
| Calendar.FollowsTheCalendarIff | tuishark/src/export/mod.rs:46-58 | over all 64-bit day counts, the date is the one reached by stepping day by day if and only if the addition does not overflow |
| PacketStore.PacketStore.Add | tuishark/src/store/packet_store.rs:24-28 | a packet and its bytes are appended together |
| PacketStore.PacketStore.GetRange | tuishark/src/store/packet_store.rs:46-50 | the packets from a position on, fewer than asked for only at the end of the store |
| PacketStore.PacketStore.Clear | tuishark/src/store/packet_store.rs:88-94 | empty again |
| PacketStore.PacketIter.constructor | tuishark/src/store/packet_store.rs:72-78 | an iteration has all selected packets before it |
| PacketStore.PacketIter.Next | tuishark/src/store/packet_store.rs:106-126 | takes the next selected packet, skipping indices without a packet, until none is left |
| PacketStore.VisitedInOrder | tuishark/src/store/packet_store.rs:103-126 | indices are visited one after the other, each as often as it is listed |
| Csv.ExportCsv | tuishark/src/export/csv.rs:10-29 | the export loop writes the header and one line per visited packet, and counts them |
| Csv.RecordReads | tuishark/src/export/csv.rs:81-113 | a record written in any mixture of the two ways is read back |
| Csv.RecordsRead | tuishark/src/export/csv.rs:81-113 | so is a whole document |
| Csv.ExportReadsBack | tuishark/src/export/csv.rs:10-113 | an RFC 4180 reader recovers the header and every field of every row of an exported document |
| Numerals.HexDenotes | tuishark/src/export/csv.rs:67-67 | hexadecimal digits denote the number they are written from, if it fits the width |
| Csv.RowsFitHeadings | tuishark/src/export/csv.rs:10-80 | every row has under each heading what the heading names, and as many fields as there are headings |
| Csv.CliReadsBack | tuishark/src/cli.rs:344-362 | the same reader recovers header and fields of the command-line tool's document, where every text is quoted |
| Csv.CliLinesFitHeadings | tuishark/src/cli.rs:294-299 | its lines too have under each heading what the heading names |
| JsonLine.EscapeJson | tuishark/src/cli.rs:385-402 | the escaping loop |
| JsonLine.EscapedReads | tuishark/src/cli.rs:385-402 | decoding strings as RFC 8259 says inverts the escaping, whatever follows |
| JsonLine.NoRawControl | tuishark/src/cli.rs:385-402 | escaped text has no raw control character |
| JsonLine.WriteJson | tuishark/src/cli.rs:364-383 | the line is the object of the packet's members, the optional ones last |
| JsonLine.LineReadsBack | tuishark/src/cli.rs:364-383 | reading a line gives back every member: names, texts and numbers |
| JsonLine.LinesFitNames | tuishark/src/cli.rs:364-383 | a member is in a packet's line if and only if its value is what its name says of the packet |
| Conversations.ReverseSharesKeyIff | tuishark/src/stats/conversations.rs:50-88 | a packet and its reverse share a key, in opposite directions unless both ends are equal, if and only if the ends are not two spellings of one address at one port |
| Conversations.CanonicalEndsShareKey | tuishark/src/dissect/fast.rs:92-100 | with address texts as dissection prints them, a packet and its reverse always share a key, in opposite directions if and only if their ends differ |
| Conversations.PrintedIsCanonical | tuishark/src/dissect/fast.rs:92-100 | the text an address is printed as is such a text |
| Conversations.SameKeyIffSameEnds | tuishark/src/stats/conversations.rs:62-88 | packets share a conversation if and only if they have the same protocol and ends, in the same direction, or in the other one unless the ends are two spellings of one address at one port |
| Conversations.KeyNamesTheEnds | tuishark/src/stats/conversations.rs:50-88 | a key has the packet's two ends, each with its own port, the lower one first, and the direction tells which is the source |
| Conversations.Compute | tuishark/src/stats/conversations.rs:90-128 | one entry per conversation with packets and bytes per direction and first and last time, in descending order of packets |
| Conversations.UpdateAccounts | tuishark/src/stats/conversations.rs:94-122 | each packet keeps the accounts right |
| Conversations.TotalsAreConserved | tuishark/src/stats/conversations.rs:90-128 | packets and bytes of all conversations are those of the packets visited |
| Conversations.ReportIsDetermined | tuishark/src/stats/conversations.rs:125-127 | the hash map's order does not change which entries there are |
| DetailTree.DetailTree.constructor | tuishark/src/app.rs:321-328 | nothing is shown |
| DetailTree.DetailTree.Show | tuishark/src/app.rs:646-657 | a new detail shows the layers that are not remembered as collapsed expanded, with the cursor on the first line |
| DetailTree.DetailTree.Forget | tuishark/src/app.rs:1958-1962 | opening a file forgets the detail and the collapsed layers |
| DetailTree.DetailTree.EnsureDetailVisible | tuishark/src/app.rs:725-761 | the counting loop finds the line of the selected row, and the window moves by exactly as little as brings it in: up to that line, or down until it is the last one |
| DetailTree.DetailTree.MoveDown | tuishark/src/app.rs:1653-1685 | down selects what is drawn on the next line; on the last line a header stays and a field goes back to its header |
| DetailTree.DetailTree.MoveUp | tuishark/src/app.rs:1686-1710 | up selects what is drawn on the previous line; line 0 stays |
| DetailTree.DetailTree.ToggleExpand | tuishark/src/app.rs:1711-1722 | on a header, the layer is expanded or collapsed and remembered; the line stays |
| DetailTree.DetailTree.GoLeft | tuishark/src/app.rs:1723-1734 | from a field to its header, from an expanded header to a collapsed one |
| DetailTree.DetailTree.GoRight | tuishark/src/app.rs:1735-1754 | from a collapsed header to an expanded one, from an expanded one to its first field |
| DetailTree.DetailTree.SetLayerExpanded | tuishark/src/app.rs:1760-1775 | sets and remembers the state of one layer, and ignores an index past the last one |
| DetailTree.DrawnOnItsLine | tuishark/src/ui/widgets/detail_tree.rs:67-127 | every row that exists is drawn on the line computed for it |
| DetailTree.LineShowsItsRow | tuishark/src/ui/widgets/detail_tree.rs:67-127 | every line drawn shows the row computed to be there |
| DetailTree.NextRow | tuishark/src/ui/widgets/detail_tree.rs:67-127 | what is drawn on the line below a row |
| DetailTree.ToggleIsRememberedIff | tuishark/src/app.rs:1760-1775 | after a toggle, showing the detail again shows the same lines if and only if no other layer has the toggled layer's key |

## Left out

- IP address text: `Platform.parseIp` and `printIp` stand for the standard library; all that is assumed is that printed addresses read back and are made of word characters other than `/`.
- Unicode character classes: `Platform.isSpace` and `isAlnum` are fixed for ASCII only.
- Text is a sequence of characters: `contains` and string order work on UTF-8 bytes in the program, which gives the same answers for whole characters.
- Protocols: a packet's protocol is any value with a name, an alias and a shown text; the program's named ones are listed, the tables that guess a protocol from ports are not.
- Filter errors: which error a text gives, and where, is transcribed from the parser; which texts are errors is proved, which message fits which is not.
- Link metadata: action, direction, reason and flag texts are already rendered in the model's packets.
- Integer widths: 64-bit sizes, counters and byte totals are unbounded, except the 64-bit addition in the calendar conversion and the 32-bit addition in the BTF layout, which wrap as in a build without overflow checks.
- Floating point: times are reals or integers; `{:.6}` and ISO 8601 formatting is a parameter of the exports.
- Standard library sorts: `sort_by_key` and `sort_by` are specified as the stable sort, not modelled as an algorithm in place.
- Binary search in a list that is not increasing: the library leaves open what it finds, the model uses one search order.
- Hash map order: it is part of each operation (`PathLedger`), or an arbitrary choice in a loop (`Conversations.Compute`).
- Clocks: the aggregator's `now` is an input; nothing depends on it never going back.
- Writing to a file: outputs are texts, and write errors are not modelled.
- Deep dissection: what the dissector makes of a packet is known by the packet's bytes; the helper thread that runs out of time is the step that times out, and a worker that was replaced is no longer modelled.
- Errors when the worker is started are status messages; what is modelled is that there is then no worker, and that whatever was pending stays so.
- Quitting: the ends of the worker and the capture thread through closed channels at program exit are not modelled.
- Auto-scroll: whether the list follows the tail is an input of each drain; the keys that switch it off are not modelled.
- Trace lookups while packets are drained, highlight ranges in the hex view, status messages and statistics dialogs.
- The detail tree takes each layer's key and number of fields as given; how a layer's name becomes a key is not modelled, and no detail and a detail without layers are alike.
- JSON reading: the reader takes objects of strings and numerals without white space, which is what is written; it does not check the grammar of numbers.
- BTF files: the encoder writes version 1 with both sections right behind the header, while decoding is proved for every header that announces sections inside the data.
- BTF string sections are bytes, and whether a name is valid UTF-8 is a parameter; reading the file and the default offsets are not modelled.
- eBPF programs, perf buffers, libpcap, tshark, HTTP, configuration and recent files: foreign calls.
- Packet dissection from raw bytes: it is done by a library that is not part of this model.
- The AI worker's display state, endpoint and I/O statistics, key bindings, themes, dialogs and other widgets: no invariant holds across them, or only easy ones.
