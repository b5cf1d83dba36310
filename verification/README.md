# LuCI2, modelled and proved

LuCI2 is the web interface of a router. Behind its pages are a handful of algorithms
with state of their own, in C on the router and in JavaScript in the browser. This
project models them in Dafny and proves what they are for. `dafny verify dfyconfig.toml`
checks all of it.

- **Multipart parser** (`MultipartMachine`, `MultipartChunking`, `MultipartGathering`,
  `MultipartDelimiter`, `MultipartEncoding`). Uploads arrive in chunks, and the parser keeps its state, an index
  and a lookbehind buffer between them. `Step` and `Run` say what bytes do, without cursor
  or mark; class `Parser` is the C structure with boundary and lookbehind buffer in one
  array, and its `Execute` moves cursor and mark and steps back on a false match. Cutting a
  body differently does not matter, except to headers, in three situations that are
  characterised exactly, down to which callbacks make up which header. The end of a part is
  found exactly for boundaries whose carriage returns restart the delimiter. What has been
  written comes back, part for part and header for header.
- **Configuration overlay** (`UciTypes`, `UciServer`, `Uci`, `UciOverlay`, `UciSave`,
  `UciOrder`, `UciSaveOrder`). Pending creates, changes, deletes and reorders lie over sections loaded from
  the router and are sent as one batch. `State` and the functions on it say what each
  operation does to the tables, class `Uci` is the object. The overlay refines a map that
  every operation updates at once; saving commits that map, with the types, the options and
  the order of the sections; listings show what `get` gives, and listings and swaps keep the
  sections numbered.
- **Batched JSON-RPC** (`Rpc`, `RpcRefinement`). Ids and the table of requests do what
  pairing each reply with its call would do, over all interleavings; what each kind of reply
  yields is stated on replies written out.
- **Datatype expressions** (`Validation`, `ValidationPrint`, `ValidationEval`). Text such
  as `or("auto",range(32,64))` is compiled into a stack that the combinators walk with an
  index. Compiling what was written gives the expression back, and running it gives what
  the expression means.
- **Package listing** (`Opkg`). The server hands out windows of at most 100 lines and the
  client joins them.
- **Bandwidth monitor** (`Bwmon`). A ring of counter differences for every device.
- **Alias devices** (`Network`). Following aliases to a device, with detection of cycles.
- **Access lists** (`Acl`, `Words`). Storing a selection as allowing or denying patterns
  and reading it back.
- **Addresses and keys** (`Ipv6`, `Pubkey`). Reading internet addresses, base64 and SSH
  public keys.

The source's loops and objects are methods and classes, each proved against a function of
its inputs or of its old state; the lemmas are about those functions. `Options` is the
value that may be missing.

## Where the code differs from what one would expect

Each of these is stated as it is in the code, with the exact condition under which the
expected property holds and an input for which it does not.

- Header callbacks of the multipart parser depend on the cutting: a chunk ending on a
  hyphen loses the name fragment, a chunk ending on the carriage return of a value hands
  the value out twice, and when a name breaks off without a colon, what the chunk holds of
  it is lost, while what earlier chunks held is not (`MultipartChunking.HeadersExact`,
  `MultipartGathering.GatheredExactly`; `MultipartEncoding.HyphenSlips`,
  `MultipartEncoding.ReturnSlips`, `MultipartEncoding.BrokenNameSlips`).
- A boundary with a carriage return that does not restart the delimiter makes the parser
  overlook delimiters (`MultipartDelimiter.DelimitersFound`; `MultipartDelimiter.LostDelimiter`,
  `MultipartDelimiter.NotRestartable`).
- Removing an added section that hides a loaded one brings the loaded one back
  (`UciOverlay.RemoveRefines`, `UciOverlay.RunRefines`; `UciOverlay.RevealingRun`,
  `UciOverlay.SuchState`).
- The batch of a save puts deletes last, so a section added under a name that is to be
  deleted is lost (`UciSave.SaveCommits`, `UciSave.TransactionCommits`;
  `UciSave.RevivedIsLost`, `UciSave.RevivingRun`).
- A request stays in the table when its reply cannot be treated or is missing
  (`RpcRefinement.RunTight`; `RpcRefinement.LeftInTable`).
- The package client takes the limit for the number of the last line, not for a count from
  the offset, so with an offset and a limit of more than one window lines can be missing
  (`Opkg.FetchedIsDirect`; `Opkg.LinesMissing`, `Opkg.SuchLines`).
- The address parser reads a dotted tail that no double colon precedes as a hexadecimal
  group ending at its first dot (`Ipv6.MixedForm`, `Ipv6.DottedReadShort`).
- The address parser fills up short addresses without a double colon, accepts groups of any
  length, and accepts a double colon after eight groups (`Ipv6.ReadsText`,
  `Ipv6.AcceptedExactly`; `Ipv6.LooselyAccepted`).
- The number of bits shown for a key is wrong unless the number fills an even number of
  bytes (`Pubkey.BitsExactly`; `Pubkey.OddLength`).

## Model

| member | source | states |
|---|---|---|
| MultipartMachine.Parser.constructor | luci2-base/src/io/multipart_parser.c:80-97 | The parser starts at the beginning of the opening delimiter, in one allocation for boundary, terminator and lookbehind of the size the code asks for. |
| MultipartMachine.Parser.LookbehindIsHeld | luci2-base/src/io/multipart_parser.c:83-90 | Whenever a chunk has been accepted, the undecided bytes of a possible delimiter stand in the lookbehind area and inside the allocation. |
| MultipartMachine.Parser.BoundaryByte | luci2-base/src/io/multipart_parser.c:120-148 | Matching of the opening delimiter, byte by byte. |
| MultipartMachine.Parser.FieldByte | luci2-base/src/io/multipart_parser.c:150-180 | Header names: the bytes since the mark are handed out at a colon and at the end of a chunk unless it ends on a hyphen; which bytes a name can have is in MultipartMachine.NameByteTaken. |
| MultipartMachine.Parser.ValueByte | luci2-base/src/io/multipart_parser.c:191-209 | Header values, including the second hand-out when a chunk ends on the carriage return. |
| MultipartMachine.Parser.DataByte | luci2-base/src/io/multipart_parser.c:219-237 | Part data up to a carriage return or the end of the chunk. |
| MultipartMachine.Parser.AlmostBoundaryByte | luci2-base/src/io/multipart_parser.c:239-250 | A lone carriage return is handed out as data and the same byte is looked at again. |
| MultipartMachine.Parser.KeepMatch | luci2-base/src/io/multipart_parser.c:262-264 | Another matching byte is stored behind the carriage return and line feed, within the allocation. |
| MultipartMachine.Parser.DelimiterByte | luci2-base/src/io/multipart_parser.c:252-265 | A delimiter that fails to match is handed out as data and the byte is looked at again; a complete one ends the part. |
| MultipartMachine.Parser.EndByte | luci2-base/src/io/multipart_parser.c:267-299 | What follows a delimiter: another part, the end of the body, or a rejection. |
| MultipartMachine.Parser.Turn | luci2-base/src/io/multipart_parser.c:120-304 | One iteration of the loop does what one byte does in the cursor-free machine, or steps back on the same byte with the rest still to do. |
| MultipartMachine.Parser.Execute | luci2-base/src/io/multipart_parser.c:111-309 | One call consumes the same bytes, fires the same callbacks and leaves the same fields as the cursor-free run over the chunk, whatever callbacks refuse, in at most twice as many iterations as bytes. |
| MultipartMachine.NameByteTaken | luci2-base/src/io/multipart_parser.c:156-180 | Where a name can stand, a byte is taken if and only if it is one of the 52 letters of either case, a hyphen, a colon or a carriage return, each written out; at any other byte the count stops there. |
| MultipartMachine.Characters | luci2-base/src/io/multipart_parser.c:43-44 | The line feed, carriage return, space, colon and hyphen of the machine are those characters. |
| MultipartChunking.Upload | luci2-base/src/io/main.c:559-565 | The reading loop of an upload: chunk after chunk until one is not consumed whole. |
| MultipartChunking.ReadConcat | luci2-base/src/io/multipart_parser.c:111-309 | Reading a body in two pieces is reading it in one. |
| MultipartChunking.StepTold | luci2-base/src/io/multipart_parser.c:120-304 | For every state, byte and place in a chunk: callback bytes plus bytes pending since the mark are what reading the byte yields, except in the three situations where header bytes slip. |
| MultipartChunking.RunTold | luci2-base/src/io/multipart_parser.c:111-309 | The same over a whole chunk, with state, count and status. |
| MultipartChunking.FeedTold | luci2-base/src/io/multipart_parser.c:111-309 | The same over any number of chunks. |
| MultipartChunking.CuttingIrrelevant | luci2-base/src/io/multipart_parser.c:111-309 | Any two ways of cutting a body into chunks give the same final state, index and undecided bytes, the same stop position, the same notifications and the same part data. |
| MultipartChunking.HeadersExact | luci2-base/src/io/multipart_parser.c:156-209 | Header names and values come out byte for byte as in the body if and only if no chunk slips: ends on a hyphen of a name, ends on the carriage return of a value, or holds part of a name that then breaks off. |
| MultipartGathering.StepGathers | luci2-base/src/io/multipart_parser.c:120-304 | For every state and byte that does not slip: what the callbacks and the bytes still pending add up to is what the bytes add up to. |
| MultipartGathering.FeedGathers | luci2-base/src/io/multipart_parser.c:111-309 | The same over any number of chunks. |
| MultipartGathering.GatherBytes | luci2-base/src/io/multipart_parser.c:167-208 | No header byte of a callback is dropped when callbacks are put together. |
| MultipartGathering.GatheredExactly | luci2-base/src/io/multipart_parser.c:111-309 | Put together, the callbacks give the headers and data that the bytes give if and only if no chunk slips. |
| MultipartDelimiter.KeptSnoc | luci2-base/src/io/multipart_parser.c:219-265 | At every point of part data the bytes handed out and the bytes held are the bytes consumed, and the held ones begin a delimiter. |
| MultipartDelimiter.ScansOrEnds | luci2-base/src/io/multipart_parser.c:219-265 | The end of a part is reported only where a delimiter has been read. |
| MultipartDelimiter.NothingMissed | luci2-base/src/io/multipart_parser.c:239-265 | Restarting only at the byte that failed overlooks no delimiter, if the boundary is restartable. |
| MultipartDelimiter.FirstDelimiter | luci2-base/src/io/multipart_parser.c:219-265 | The end of the part is reported at the first delimiter, after exactly the data before it. |
| MultipartDelimiter.LostDelimiter | luci2-base/src/io/multipart_parser.c:252-265 | For every boundary that is not restartable, a body with a delimiter that goes by unreported. |
| MultipartDelimiter.NotRestartable | luci2-base/src/io/multipart_parser.c:251-265 | There are such boundaries: two carriage returns. |
| MultipartDelimiter.DelimitersFound | luci2-base/src/io/multipart_parser.c:219-265 | Every delimiter in part data ends the part if and only if each carriage return in the boundary starts a tail that is a prefix of the delimiter; no boundary makes the parser report one that is not there. |
| MultipartEncoding.PlainBoundary | luci2-base/src/io/multipart_parser.c:239-265 | For a boundary without carriage returns it is enough that the data does not contain the delimiter. |
| MultipartEncoding.WrittenText | luci2-base/src/io/multipart_parser.c:111-309 | What is written, in characters: name, colon, spaces, value and line end for a header, an empty line, the data with the delimiter, and two hyphens at the end. |
| MultipartEncoding.ReadsHeader | luci2-base/src/io/multipart_parser.c:150-217 | A written header is read as the bytes of its name and of its value, blanks before the value dropped. |
| MultipartEncoding.AbsorbsHeader | luci2-base/src/io/multipart_parser.c:150-217 | A written header is one more field of its part, whatever the lengths of its name and value. |
| MultipartEncoding.ReadsData | luci2-base/src/io/multipart_parser.c:214-265 | Data and the delimiter after it are read as that data and the end of the part. |
| MultipartEncoding.ReadsBody | luci2-base/src/io/multipart_parser.c:111-309 | A written body is read whole, and its bytes add up to the parts: header for header, empty names and values included, and the data. |
| MultipartEncoding.UnbrokenCuts | luci2-base/src/io/multipart_parser.c:156-209 | In a body whose names are not broken off, headers slip only at the end of a chunk. |
| MultipartEncoding.RoundTrip | luci2-base/src/io/multipart_parser.c:111-309 | Any parts, written and fed in any chunks, are consumed whole, end in s_end and give back the same data. What the callbacks add up to, a run of name callbacks being a name and the run of value callbacks after it its value, is the list of parts with exactly their headers, if and only if no chunk ends on a hyphen of a name or the carriage return of a value. |
| MultipartEncoding.RoundTripWhole | luci2-base/src/io/multipart_parser.c:111-309 | In one piece the callbacks add up to exactly the parts that were written, with no condition. |
| MultipartEncoding.HyphenSlips | luci2-base/src/io/multipart_parser.c:163-165 | For every boundary: a written body, and a cut after a hyphen of a name, that slips. |
| MultipartEncoding.ReturnSlips | luci2-base/src/io/multipart_parser.c:201-209 | For every boundary: a written body, and a cut after the carriage return of a value, that slips. |
| MultipartEncoding.BrokenNameSlips | luci2-base/src/io/multipart_parser.c:156-162 | A chunk with a name that a carriage return breaks off slips. |
| UciServer.ExecConcat | luci2-base/htdocs/luci2/uci.js:400-478 | Calls of a batch are carried out and answered in order. |
| Uci.FilterArray | luci2-base/htdocs/luci2/luci2.js:529-539 | Cutting items out of the array while going through it leaves the array without them, in order. |
| Uci.Uci.Add | luci2-base/htdocs/luci2/uci.js:156-173 | A section is created under its name or a drawn one, with an index after all others. |
| Uci.Uci.Remove | luci2-base/htdocs/luci2/uci.js:175-196 | An added section is forgotten; any other is marked for deletion and its changes dropped. |
| Uci.Uci.Get | luci2-base/htdocs/luci2/uci.js:236-282 | The lookup order: added sections, deletions, changes, loaded values. |
| Uci.Uci.GetSection | luci2-base/htdocs/luci2/uci.js:238-288 | Without an option: the section object, whatever is pending for it. |
| Uci.Uci.SetChange | luci2-base/htdocs/luci2/uci.js:309-329 | A change in a loaded section, which also cancels the deletion of that option. |
| Uci.Uci.SetDeletion | luci2-base/htdocs/luci2/uci.js:331-345 | A deletion of an option of a loaded section. |
| Uci.Uci.Set | luci2-base/htdocs/luci2/uci.js:290-346 | All branches of set: dot options, added sections, changes, deletions. |
| Uci.Uci.Unset | luci2-base/htdocs/luci2/uci.js:348-351 | Set to nothing. |
| Uci.Uci.Swap | luci2-base/htdocs/luci2/uci.js:382-398 | The indexes of two sections change places, and the configuration is to be reordered. |
| Uci.Uci.Sections | luci2-base/htdocs/luci2/uci.js:198-234 | All sections of a type that are not to be deleted, once each and in the order of their indexes, then numbered by position; only added sections keep the number. What a listed section shows is in UciOverlay.ListedOptions. |
| Uci.Uci.ReorderSections | luci2-base/htdocs/luci2/uci.js:70-113 | One order call for each swapped configuration, with the section names by index. |
| Uci.Uci.Unload | luci2-base/htdocs/luci2/uci.js:142-154 | Everything known of the configurations is dropped. |
| Uci.Uci.Load | luci2-base/htdocs/luci2/uci.js:115-140 | Configurations that are not loaded are fetched. |
| Uci.Uci.AssignNames | luci2-base/htdocs/luci2/uci.js:467-468 | Added sections take the names of the replies. |
| Uci.Uci.Save | luci2-base/htdocs/luci2/uci.js:400-478 | One batch of adds, sets and deletes, the new names, the reordering and the fresh load, in this order. |
| UciOverlay.GetIsLookup | luci2-base/htdocs/luci2/uci.js:236-288 | Getting an option is lookup in the map the overlay stands for. |
| UciOverlay.AddRefines | luci2-base/htdocs/luci2/uci.js:156-173 | Adding acts on that map as an eager add. |
| UciOverlay.RemoveRefines | luci2-base/htdocs/luci2/uci.js:175-196 | Removing acts on it as an eager remove if and only if the section does not hide a loaded one that is still there. |
| UciOverlay.SetRefines | luci2-base/htdocs/luci2/uci.js:290-351 | Setting and unsetting act on it as an eager set, including set after unset, unset twice, set after remove, and the empty text, which deletes in loaded sections only. |
| UciOverlay.SwappedAt | luci2-base/htdocs/luci2/uci.js:382-398 | Swapping changes nothing but indexes. |
| UciOverlay.RenumberedAt | luci2-base/htdocs/luci2/uci.js:223-224 | Numbering changes nothing but indexes. |
| UciOverlay.RunRefines | luci2-base/htdocs/luci2/uci.js:156-351 | All along any run of operations the overlay stands for the map updated eagerly by each of them, types and options of all live sections, if and only if no section is removed that hides a loaded one. |
| UciOverlay.RunGet | luci2-base/htdocs/luci2/uci.js:236-288 | After every such run, getting an option is lookup in the eagerly updated map. |
| UciOverlay.StepRefines | luci2-base/htdocs/luci2/uci.js:156-398 | One operation does to the map what the eager one does, if and only if it does not remove a section that hides a loaded one. |
| UciOverlay.FreshRun | luci2-base/htdocs/luci2/uci.js:156-196 | A run that adds nothing under the name of a loaded section still there never removes such a section. |
| UciOverlay.RevealingRun | luci2-base/htdocs/luci2/uci.js:156-196 | Adding under the name of a loaded section and removing again leaves the loaded one, where the map has none. |
| UciOverlay.ListsLive | luci2-base/htdocs/luci2/uci.js:198-234 | A listing names exactly the live sections of that map that have the type asked for, or all of them, once each. |
| UciOverlay.ListedOptions | luci2-base/htdocs/luci2/uci.js:198-234 | In every grounded state a listed section shows each option as get gives it, but for options singly deleted: those it still shows, as changed or as loaded. |
| UciOverlay.ListedContent | luci2-base/htdocs/luci2/uci.js:198-234 | So its type and its options without those singly deleted are what the map has for the section. |
| UciOverlay.SetGet | luci2-base/htdocs/luci2/uci.js:236-346 | After set, get gives the value in every section there is, and nothing after the empty text in a loaded one. |
| UciOverlay.SetGetOther | luci2-base/htdocs/luci2/uci.js:236-346 | Every other option of every section is got as before. |
| UciOverlay.DotNotSet | luci2-base/htdocs/luci2/uci.js:297-300 | Setting a member whose name begins with a dot changes nothing. |
| UciOverlay.AddedMembers | luci2-base/htdocs/luci2/uci.js:156-173 | The type, name, create, anonymous and index members of a section just added. |
| UciOverlay.LoadedMembers | luci2-base/htdocs/luci2/uci.js:236-282 | Those of a loaded section under their names. |
| UciOverlay.SectionGot | luci2-base/htdocs/luci2/uci.js:238-288 | The section object got is the one added, or the one loaded whatever has been set in it or removed. |
| UciSave.AddsPlaced | luci2-base/htdocs/luci2/uci.js:414-440 | The adds of the batch put every added section, with its type and options, at a new place of its own and touch nothing else. |
| UciSave.BatchStores | luci2-base/htdocs/luci2/uci.js:414-461 | What the whole batch makes of a section, in terms of its pending change and deletion. |
| UciSave.SaveCommits | luci2-base/htdocs/luci2/uci.js:400-478 | After saving nothing is pending, and what is loaded is what the overlay stood for, types and options, added sections under the names of the replies, if and only if no section was added under a name whose deletion is pending. |
| UciSave.RevivedIsLost | luci2-base/htdocs/luci2/uci.js:414-461 | A section added under a name to be deleted is gone after the batch. |
| UciSave.TransactionCommits | luci2-base/htdocs/luci2/uci.js:115-478 | Load, any proper run of operations, save: the server and the reloaded tables hold the eagerly updated map, types and options, if and only if no deleted name was added again. |
| UciSave.RevivingRun | luci2-base/htdocs/luci2/uci.js:156-196 | Load a section, remove it and add one under its name: a proper run of which the save loses a section. |
| UciOrder.SameOrder | luci2-base/htdocs/luci2/uci.js:219-221 | There is one way to sort entries of different indexes, whatever order a loop over an object takes. |
| UciOrder.ListingsAgree | luci2-base/htdocs/luci2/uci.js:198-234 | Repeated listings agree and leave the numbering as it is. |
| UciOrder.SwapExchanges | luci2-base/htdocs/luci2/uci.js:382-398 | Swapping exchanges exactly two positions of the listing. |
| UciOrder.AddAppends | luci2-base/htdocs/luci2/uci.js:156-234 | Adding a section and listing puts it last and numbers all sections from 0 on. |
| UciOrder.OrderIsListed | luci2-base/htdocs/luci2/uci.js:85-108 | With nothing removed, the names sent for reordering are in the order of the listing. |
| UciOrder.RunArranges | luci2-base/htdocs/luci2/uci.js:70-398 | Over all runs of adding with listing, swapping and listing, the live sections stay numbered 0, 1, 2, ... in the order these acts make. |
| UciSaveOrder.RunSendsOrder | luci2-base/htdocs/luci2/uci.js:70-398 | After every such run with nothing removed, the names sent for reordering are those of the sections in the order the acts make. |
| UciSaveOrder.NamedCells | luci2-base/htdocs/luci2/uci.js:463-468 | The replies name each added section, and change nothing else of it. |
| UciSaveOrder.StoredIds | luci2-base/htdocs/luci2/uci.js:414-461 | The batch leaves sections of a listed configuration under exactly the new names of the listed ones. |
| UciSaveOrder.OrdersAt | luci2-base/htdocs/luci2/uci.js:85-108 | Of several order calls the one for a configuration numbers its sections by their places in it. |
| UciSaveOrder.SaveKeepsOrder | luci2-base/htdocs/luci2/uci.js:70-478 | After a save the sections of a reordered configuration are loaded in the order they were listed in before, added ones under their new names. |
| UciSaveOrder.RunSavesOrder | luci2-base/htdocs/luci2/uci.js:70-478 | Over whole runs: the order the acts make is the order loaded after the save. |
| Rpc.ExpectedTag | luci2-base/htdocs/luci2/rpc.js:69-81 | With an expectation the value before filtering has the type of the default, and is the default where the reply has no payload. |
| Rpc.Succeeds | luci2-base/htdocs/luci2/rpc.js:61-81 | A version 2.0 reply with result [0, x, ...]: the caller gets x, or where it expects something x itself or the expected member of it if that is of the kind of the default, or else the default; expecting a member of null throws. |
| Rpc.SucceedsEmpty | luci2-base/htdocs/luci2/rpc.js:61-81 | With result [0] the caller gets 0, or its default unless that is a number and no member is asked for. |
| Rpc.Fails | luci2-base/htdocs/luci2/rpc.js:61-81 | With any other status, version or shape the caller gets undefined, or its default; a reply that is null throws. |
| Rpc.Filtered | luci2-base/htdocs/luci2/rpc.js:83-89 | A filter is handed what the caller would get without it, and the caller gets what it returns. |
| Rpc.ListReplies | luci2-base/htdocs/luci2/rpc.js:31-40 | A listing yields the result array of a version 2.0 reply that has an id, and otherwise an empty list. |
| Rpc.RepliesAre | luci2-base/htdocs/luci2/rpc.js:54 | The replies to a batch are the items of the array, the numbered members of an object with a length, or the characters of a text. |
| Rpc.Decimals | luci2-base/htdocs/luci2/rpc.js:54 | Members are numbered in decimal. |
| Rpc.Rpc.StartBatch | luci2-base/htdocs/luci2/rpc.js:120-124 | A batch that has begun is kept. |
| Rpc.Rpc.FlushBatch | luci2-base/htdocs/luci2/rpc.js:126-136 | The collected messages are sent, in order; without a batch the result is empty. |
| Rpc.Rpc.Invoke | luci2-base/htdocs/luci2/rpc.js:138-187 | A call gets the next id and an entry in the table, with its place if a batch is being collected. |
| Rpc.Rpc.ListObjects | luci2-base/htdocs/luci2/rpc.js:104-118 | Listing takes an id but no entry. |
| Rpc.Rpc.CallCb | luci2-base/htdocs/luci2/rpc.js:42-102 | The loop over the replies: look up, treat, store by index, delete the entry. |
| Rpc.Rpc.Receive | luci2-base/htdocs/luci2/rpc.js:31-102 | The callback for the kind of flight that is answered; what answers a batch is iterated by its length, be it an array, a string or an object with one. |
| RpcRefinement.RunRefines | luci2-base/htdocs/luci2/rpc.js:31-187 | Over all interleavings of calls, batches, flushes and deliveries, callers get exactly what pairing each reply with its call directly would give; ids never collide. |
| RpcRefinement.CallAnswered | luci2-base/htdocs/luci2/rpc.js:138-187 | From every reachable state: a call outside a batch sends its own path, action and arguments at once, and its reply is treated as it asks. |
| RpcRefinement.BatchAnswered | luci2-base/htdocs/luci2/rpc.js:42-187 | From every reachable state, whatever happens between a batch and its flush: the array of the flush holds for each call in turn the reply in its place, treated as that call asks, and there is none if and only if one of these cannot be treated. |
| RpcRefinement.BatchCollects | luci2-base/htdocs/luci2/rpc.js:120-187 | Between a batch and its flush the calls are collected in order, whatever else happens. |
| RpcRefinement.AnswersPairwise | luci2-base/htdocs/luci2/rpc.js:54-99 | The k-th result is the k-th reply treated as the k-th call asks, and there is a result if and only if each reply can be treated. |
| RpcRefinement.DeliveredLeaves | luci2-base/htdocs/luci2/rpc.js:54-102 | A delivery empties the table of the ids of its flight if and only if every call of it is answered by a reply that can be treated. |
| RpcRefinement.StaysTight | luci2-base/htdocs/luci2/rpc.js:31-187 | A step keeps it that the table holds exactly the ids batched or in flight, if and only if it is no delivery that leaves a call unanswered. |
| RpcRefinement.RunTight | luci2-base/htdocs/luci2/rpc.js:31-187 | From the beginning on and all along a run, the table holds exactly the ids batched or in flight if and only if every delivery answers all calls of its flight. |
| RpcRefinement.LeftInTable | luci2-base/htdocs/luci2/rpc.js:54-98 | A call answered with null stays in the table for good, with nothing batched or in flight. |
| Validation.CompileText | luci2-base/htdocs/luci2/cbi.js:15-89 | The loop with positions, escapes and depth gives the stack that scanning the text character by character gives, or the syntax error, and ends, recursing on shorter text only. |
| Validation.PushLabel | luci2-base/htdocs/luci2/cbi.js:43-68 | A token is a number, a quoted text, a type or a syntax error, in this order. |
| Validation.CompileShaped | luci2-base/htdocs/luci2/cbi.js:15-89 | On every text that compiles, each function is followed by its argument array, all the way down. |
| ValidationPrint.TokenPushes | luci2-base/htdocs/luci2/cbi.js:45-67 | A written token, blanks around it and escapes in it undone, pushes what it stands for. |
| ValidationPrint.ScanInside | luci2-base/htdocs/luci2/cbi.js:39-84 | Inside parentheses an expression of any nesting is only collected. |
| ValidationPrint.CompileList | luci2-base/htdocs/luci2/cbi.js:15-89 | Writing any expressions and compiling the text gives them back, flattened. |
| ValidationPrint.UnknownRefused | luci2-base/htdocs/luci2/cbi.js:43-68 | A word that is no number, no quoted text and no type is a syntax error, whether a comma, a parenthesis or the end follows it. |
| ValidationPrint.ArgumentsRefused | luci2-base/htdocs/luci2/cbi.js:74-82 | Arguments after a number or a quoted text are a syntax error. |
| ValidationEval.RunOr | luci2-base/htdocs/luci2/cbi.js:406-431 | The index loop over literals and functions computes the recursive meaning of or on a stack. |
| ValidationEval.RunAnd | luci2-base/htdocs/luci2/cbi.js:433-458 | The same for and. |
| ValidationEval.RunList | luci2-base/htdocs/luci2/cbi.js:466-477 | The same for list, over the tokens of the value. |
| ValidationEval.TokensSpaced | luci2-base/htdocs/luci2/cbi.js:471 | Words with blanks between them, and any at the ends, are split into exactly those words. |
| ValidationEval.TokensAreStretches | luci2-base/htdocs/luci2/cbi.js:471 | The tokens of a value are exactly its maximal stretches without blanks. |
| ValidationEval.ListAccepts | luci2-base/htdocs/luci2/cbi.js:466-477 | list accepts if and only if there is such a stretch and its validator accepts every one; unless the validator throws, it throws if and only if there is none; without a validator it rejects. |
| ValidationEval.BangStripped | luci2-base/htdocs/luci2/cbi.js:460-464 | neg looks at what follows the exclamation mark and the blanks around it. |
| ValidationEval.NoBang | luci2-base/htdocs/luci2/cbi.js:460-464 | A value that does not begin with one, blanks aside, stays as it is. |
| ValidationEval.RunApply | luci2-base/htdocs/luci2/cbi.js:406-477 | A function slot applied to its argument array, with neg as or on the stripped value. |
| ValidationEval.FirstIs | luci2-base/htdocs/luci2/cbi.js:406-458 | Without exceptions or is exists and and is for all. |
| ValidationEval.FirstSettles | luci2-base/htdocs/luci2/cbi.js:406-458 | In general the first expression that settles the matter decides, and all of them were undecided otherwise. |
| ValidationEval.ApplyMeans | luci2-base/htdocs/luci2/cbi.js:406-477 | A call on its flattened arguments has the meaning of the expression, for every value and nesting. |
| ValidationEval.CompiledMeans | luci2-base/htdocs/luci2/cbi.js:15-477 | Writing a call, compiling the text and running the stack gives the meaning of the call. |
| Opkg.CutLine | luci2-base/src/rpcd/luci2.c:2338-2391 | A line is cut at its first two separators into name, version and description, or is no package. |
| Opkg.LineRead | luci2-base/src/rpcd/luci2.c:2363-2391 | A line is read as the name before the first separator, the version up to the second, and the description after it, unless that is empty; without a separator it is no package. |
| Opkg.OpkgState.ParseList | luci2-base/src/rpcd/luci2.c:2336-2399 | After any number of lines the counters and the package array are those of the requested window. |
| Opkg.OpkgState.FinishList | luci2-base/src/rpcd/luci2.c:2401-2413 | After any lines, no data if none of them is in the requested window, otherwise the packages of the window and the number of all lines. |
| Opkg.OpkgState.constructor | luci2-base/src/rpcd/luci2.c:2415-2446 | Offsets are at least 0 and limits between 1 and 100, a limit in that range being kept; nothing has been counted. |
| Opkg.List | luci2-base/src/rpcd/luci2.c:2336-2450 | The server replies with the window of at most 100 lines that was asked for. |
| Opkg.FetchPackages | luci2-base/htdocs/luci2/view/system.software.js:32-67 | The client joins the first window and the pages it asks for after it. |
| Opkg.PagesJoin | luci2-base/htdocs/luci2/view/system.software.js:49-64 | From a multiple of 100 on, the pages are the lines up to the limit, none missing and none twice. |
| Opkg.PagesBound | luci2-base/htdocs/luci2/view/system.software.js:51-52 | From any line on the pages hold no more lines than there are up to the limit moved by the place of that line in its hundred. |
| Opkg.FetchedIsDirect | luci2-base/htdocs/luci2/view/system.software.js:32-67 | On well-formed lines the joined pages are the one listing of what was asked for if and only if the pages leave no gap, which is a condition on offset, limit and total. |
| Opkg.FromTheStart | luci2-base/htdocs/luci2/view/system.software.js:32-67 | From the first line on they are, whatever the limit. |
| Opkg.LinesMissing | luci2-base/htdocs/luci2/view/system.software.js:49-64 | Of any 250 well-formed lines, asking for 150 from line 100 on gives 100 of them. |
| Bwmon.Device.constructor | luci2-base/src/rpcd/bwmon.c:186-198 | A new device has read nothing and its ring is zero. |
| Bwmon.Device.PutValue | luci2-base/src/rpcd/bwmon.c:204-210 | A reading overwrites the oldest entry of its row with the difference, except for the first one, and touches no other row. |
| Bwmon.Device.Collect | luci2-base/src/rpcd/bwmon.c:230-242 | After each sample the ring holds the newest 120 of everything ever written to it, and the position is where the oldest is. |
| Bwmon.Device.DumpStats | luci2-base/src/rpcd/bwmon.c:95-111 | A dump is, for each counter, the last 120 of 120 zeros and the differences modulo 2^32, oldest first. |
| Bwmon.NamedRows | luci2-base/src/rpcd/bwmon.c:45-50 | Each row of a dump has the name of the counter it is the history of. |
| Bwmon.HistoryAt | luci2-base/src/rpcd/bwmon.c:95-111 | The k-th entry from the end is the k-th difference from the end, or zero where there have not been so many. |
| Bwmon.NewestAddUp | luci2-base/src/rpcd/bwmon.c:203-210 | The newest k entries add up to the difference of the counter over k samples, modulo 2^32. |
| Bwmon.Monitor.GetDevice | luci2-base/src/rpcd/bwmon.c:180-201 | A device is found, or made if asked for; devices share nothing. |
| Bwmon.Monitor.Visit | luci2-base/src/rpcd/bwmon.c:223-243 | One directory entry adds its sample to its device and to no other. |
| Bwmon.Monitor.Collect | luci2-base/src/rpcd/bwmon.c:213-249 | A scan does so for all entries. |
| Bwmon.Monitor.DeviceStats | luci2-base/src/rpcd/bwmon.c:126-141 | The statistics of a device are those of what has been recorded for it, or it is not found. |
| Bwmon.Monitor.Stats | luci2-base/src/rpcd/bwmon.c:145-157 | All devices that have been recorded, each with its own statistics. |
| Bwmon.RecordedFromFirstUp | luci2-base/src/rpcd/bwmon.c:223-243 | A device is recorded from the first time it is seen up, and from then on whether it is up or not. |
| Network.Network.GetDeviceObject | luci2-base/htdocs/luci2/network.js:183-195 | A device is entered under its own name, as an alias if that starts with an at sign, unless it is there. |
| Network.Network.ResolveAlias | luci2-base/htdocs/luci2/network.js:674-695 | On every graph of devices and interfaces the loop ends, with the first device on the way that is no alias if there is one, and with nothing if and only if the way dangles or cycles. |
| Network.WayAnswered | luci2-base/htdocs/luci2/network.js:674-695 | On a way written out as names and the interfaces between them, the last device is the answer if it is no alias, and there is none if it is missing or has been passed. |
| Network.WayEnds | luci2-base/htdocs/luci2/network.js:688-691 | An alias whose interface is unknown or has no device leads nowhere. |
| Network.OnTheCycle | luci2-base/htdocs/luci2/network.js:682-692 | Once a device comes back, every later device on the way is one of those passed. |
| Network.OneOutcome | luci2-base/htdocs/luci2/network.js:682-694 | A way resolves at one place at most, and on one that dangles or cycles no device, however far, is anything but an alias. |
| Acl.AclMatch | luci2-base/htdocs/luci2/view/system.users.js:11-33 | A group is granted if some pattern allows it and no pattern denies it, in whatever order they stand. |
| Acl.PlainGlob | luci2-base/htdocs/luci2/view/system.users.js:4-9 | A pattern without asterisks matches itself only. |
| Acl.StarGlob | luci2-base/htdocs/luci2/view/system.users.js:4-9 | An asterisk matches everything within a line. |
| Acl.GlobExactly | luci2-base/htdocs/luci2/view/system.users.js:4-9 | A pattern matches exactly the texts made of a piece for each of its characters: the character itself, or anything within a line for an asterisk. |
| Acl.DeniedExactly | luci2-base/htdocs/luci2/view/system.users.js:13-15 | An entry denies a pattern if and only if it is that pattern after an exclamation mark, with any space before and after the mark. |
| Acl.AclFromUCI | luci2-base/htdocs/luci2/view/system.users.js:54-70 | The choices that are granted, in their order, for a text, a list or nothing. |
| Acl.EntriesRead | luci2-base/htdocs/luci2/view/system.users.js:54-62 | Without a value nothing is granted; a text with any space between its words is read as the list of them. |
| Acl.AclToUCI | luci2-base/htdocs/luci2/view/system.users.js:72-86 | The list itself, or an asterisk with the other choices denied. |
| Acl.GrantsList | luci2-base/htdocs/luci2/view/system.users.js:11-86 | Either stored form grants a choice if and only if it is in the list. |
| Acl.RoundTrip | luci2-base/htdocs/luci2/view/system.users.js:54-86 | Reading back what was stored for any list gives the choices in it. |
| Acl.RoundTripExact | luci2-base/htdocs/luci2/view/system.users.js:54-86 | It gives the list itself if and only if that is a sub-sequence of the choices. |
| Acl.TextRoundTrip | luci2-base/htdocs/luci2/view/system.users.js:56-57 | The same when the entries are stored as words of one text. |
| Acl.StoredLength | luci2-base/htdocs/luci2/view/system.users.js:72-86 | At most half the choices and one more entry are stored. |
| Words.SplitJoin | luci2-base/htdocs/luci2/view/system.users.js:57 | Words joined by spaces are split into the same words. |
| Words.SplitSpaced | luci2-base/htdocs/luci2/view/system.users.js:57 | With any amount of space between them, too, and space at an end makes an empty word there. |
| Words.SpaceCharacters | luci2-base/htdocs/luci2/view/system.users.js:13 | The characters that are space, and those that end a line, written out. |
| Ipv6.ParseIPv4 | luci2-base/htdocs/luci2/luci2.js:587-606 | Four numbers of at most three digits and at most 255, or nothing. |
| Ipv6.ParseIPv6 | luci2-base/htdocs/luci2/luci2.js:608-675 | The loops over the two halves, the gap and the checks in between give what reading the parts of the text gives. |
| Ipv6.Ipv6 | luci2-base/htdocs/luci2/luci2.js:669-674 | Whatever is accepted has sixteen entries. |
| Ipv6.SplitJoin | luci2-base/htdocs/luci2/luci2.js:622-637 | Parts joined by a separator are split into the same parts. |
| Ipv6.SplitPairAt | luci2-base/htdocs/luci2/luci2.js:614-616 | A written address is split at its double colon and nowhere else. |
| Ipv6.ReadsText | luci2-base/htdocs/luci2/luci2.js:608-675 | For groups of any length, with or without a double colon and a dotted tail after it: the bytes of the left groups, zeros, and the bytes of the right ones. |
| Ipv6.AcceptedExactly | luci2-base/htdocs/luci2/luci2.js:659-672 | Such a text is accepted if and only if it has at most eight groups, or at most seven where any follow the double colon. |
| Ipv6.LooselyAccepted | luci2-base/htdocs/luci2/luci2.js:619-672 | A single group of any length is filled up with zeros, and eight groups with a double colon after them are accepted. |
| Ipv6.RoundTrip | luci2-base/htdocs/luci2/luci2.js:608-675 | Every complete address is read as the sixteen bytes of its eight words, high byte first. |
| Ipv6.PrintedRoundTrip | luci2-base/htdocs/luci2/luci2.js:608-675 | Eight words come back, printed with one to four digits of either case, mixed, with leading zeros or without. |
| Ipv6.PrintedGap | luci2-base/htdocs/luci2/luci2.js:608-675 | So do up to seven words with a double colon anywhere among them, which stands for zeros, and the four bytes of a dotted tail in decimal, which counts for two. |
| Ipv6.Ipv4Exactly | luci2-base/htdocs/luci2/luci2.js:587-606 | A dotted text is read as four bytes if and only if it is these bytes in decimal, in one to three digits each. |
| Ipv6.AcceptedTexts | luci2-base/htdocs/luci2/luci2.js:608-675 | Any text with a double colon in it, or without dots, is accepted if and only if it is a written address with at most eight groups, seven beside a double colon that anything follows. |
| Ipv6.DottedReadShort | luci2-base/htdocs/luci2/luci2.js:608-675 | Without a double colon a text with a dotted tail is read up to its first dot. |
| Ipv6.MixedForm | luci2-base/htdocs/luci2/luci2.js:617-675 | Six words and a dotted tail after a single colon, the mixed form of section 2.2 of RFC 4291, are read as their sixteen bytes if and only if the four of the tail are zero. |
| Ipv6.AddressCharacters | luci2-base/htdocs/luci2/luci2.js:589-611 | No character but decimal digits and dots, or hexadecimal digits of either case, colons and dots, is in an accepted text. |
| Ipv6.DigitCharacters | luci2-base/htdocs/luci2/luci2.js:626-653 | The digits of either case, written out, and what they are worth. |
| Ipv6.BigEndianAt | luci2-base/htdocs/luci2/luci2.js:630-658 | The two bytes of a word, high one first, make the word. |
| Pubkey.OrDisjoint | luci2-base/htdocs/luci2/view/system.admin.js:31-33 | Bits that do not overlap are added by the bit operation. |
| Pubkey.Base64Decode | luci2-base/htdocs/luci2/view/system.admin.js:16-45 | The cursor loop over groups of four, with padding and a short last group. |
| Pubkey.DecodeEncode | luci2-base/htdocs/luci2/view/system.admin.js:16-45 | Decoding undoes the padded encoding of section 4 of RFC 4648 for every byte string. |
| Pubkey.TableIs | luci2-base/htdocs/luci2/view/system.admin.js:3-14 | Each character of the base64 alphabet of RFC 4648 stands for its place in it. |
| Pubkey.TableOnly | luci2-base/htdocs/luci2/view/system.admin.js:21-22 | No other character is in the table. |
| Pubkey.EncodedGroup | luci2-base/htdocs/luci2/view/system.admin.js:26-42 | What is decoded is the encoding of RFC 4648: a group of three bytes, filled up with zeros, in four digits in base 64, with padding for digits no byte contributes to. |
| Pubkey.DecodesToBytes | luci2-base/htdocs/luci2/view/system.admin.js:24-42 | A base64 text without padding where a group begins decodes to bytes. |
| Pubkey.LengthDecode | luci2-base/htdocs/luci2/view/system.admin.js:47-58 | A length that is accepted leaves that many characters in the text. |
| Pubkey.LengthIs | luci2-base/htdocs/luci2/view/system.admin.js:47-58 | A length is read if and only if its four bytes stand there, highest first, below 2^31, with enough behind them. |
| Pubkey.FieldsExactly | luci2-base/htdocs/luci2/view/system.admin.js:71-92 | The fields of a key are read if and only if the key is made of these fields and some rest. |
| Pubkey.PubkeyDecode | luci2-base/htdocs/luci2/view/system.admin.js:60-111 | All checks of the decoder, with no slice out of range. |
| Pubkey.KeyExactly | luci2-base/htdocs/luci2/view/system.admin.js:60-111 | A key is read if and only if the second word decodes to a key whose type is the first word: RSA with the size of the second number for ssh-rsa, DSA with that of the first for ssh-dss, each rounded down to an even number of bytes, and the third word as its comment. |
| Pubkey.KeyRead | luci2-base/htdocs/luci2/view/system.admin.js:60-111 | A line with a key of section 6.6 of RFC 4253 on it gives the length of its measured number and the first word of its comment. |
| Pubkey.BitLengthRange | luci2-base/htdocs/luci2/view/system.admin.js:94-106 | The bit length used to judge the result is that of the number. |
| Pubkey.BitsExactly | luci2-base/htdocs/luci2/view/system.admin.js:94-106 | The bits shown are the bits of the number if and only if it fills an even number of bytes, its top bit set. |
| Pubkey.OddLength | luci2-base/htdocs/luci2/view/system.admin.js:94-103 | The number 128 has eight bits, and sixteen are shown. |

## Left out

- User interface: pages, widgets, dialogs, templates, translation, themes and the formatting of strings.
- Plumbing: ubus, uci and blobmsg calls, processes, reading `/proc` and `/sys`, logins, permissions, timeouts and failed requests. What they deliver is a parameter or a reply.
- Multipart: an empty boundary (the program always prefixes two hyphens), the default branch for an unknown state, and what the callbacks of an upload do with their data.
- MultipartMachine.Parser.Execute: what the fields are worth after a callback has refused inside a delimiter is stated, but the parser is not claimed to be valid for another call then; the program stops reading.
- UciOverlay.RunGet: members whose names begin with a dot, and getting a whole section, are not compared with the map: the code returns the section object without pending changes and deletions, which `UciOverlay.SectionGot`, `UciOverlay.AddedMembers` and `UciOverlay.LoadedMembers` state.
- UciOverlay.ListsLive: the options are compared in `UciOverlay.ListedOptions` and `UciOverlay.ListedContent`. A loaded section whose name an added one bears too is listed beside it; its own line is not compared with the map, but with what is changed or loaded. A listing by type numbers by position in that listing.
- Uci: the callback of `sections`, `get_first`, `set_first`, `unset_first`, `apply`, `readable` and `writable`, and calls with an undefined section or option. The order in which a loop goes through an object is left open. The random name of an anonymous section is a parameter that is not in use.
- UciServer: the router as a map of sections; making up names is a parameter, and `UciSave` asks that made-up names are not in use and not mentioned by the client. Permission errors and partial failures are not modelled.
- UciSaveOrder.SaveKeepsOrder: of a configuration that was not swapped the order after the save is the server's own and not stated.
- UciOrder.RunArranges: runs in which sections are removed are not covered; the indexes of the others are not closed up then until the next listing, and only for added sections.
- Rpc: the private arguments of a filter are part of the filter; the session id, the transport and the error callback are not modelled, and a reply is delivered at once. Versions, status codes and the length of an object are compared strictly where JavaScript converts, and members inherited by every object, and those an array or a text has of its own (its length and its numbered items), are not members.
- Validation: which texts are numbers and which values equal a literal is left open, as are the validators without sub-validators. Names of types are taken from a set, so inherited members are no types. The texts of messages are not modelled.
- ValidationPrint.CompileList: blanks after a closing parenthesis are not written, since the code refuses them, and quoted texts have no line ends in them, since its patterns do not match across those.
- Opkg: lines are values, so cutting the buffer in place with zero bytes is not modelled; counters are unbounded; embedded zero bytes, reading the log and the other package commands are left out.
- Bwmon: names longer than the interface name buffer, failed allocations, and devices that vanish (they keep their ring, as in the code).
- Network: all that fills the tables of devices and interfaces; names that every object inherits.
- Acl: names that every object inherits, which the code takes for selected, and the access levels built from the list.
- Acl.RoundTripExact: names with an asterisk, a line end, or a leading blank or exclamation mark are excluded, as they stand for something else in a pattern.
- Ipv6.Ipv6: its own contract is the length of the result; what the entries are is stated by `Ipv6.ReadsText` and `Ipv6.RoundTrip`.
- Pubkey.LengthDecode: its own contract is the room behind the length; what the length is is stated by `Pubkey.LengthIs`.
- Ipv6: numbers above 2^53, where JavaScript rounds.
- Pubkey: characters outside the 16-bit range cannot come out of the decoder and are not split into surrogates; of a key only the first three fields are read, as in the code.
- Pubkey.KeyExactly: base64 texts with padding where a group begins are excluded; they decode to characters that are no bytes.
- Ipv6.AcceptedTexts: texts with dots and no double colon are excluded; what the code makes of them is in `Ipv6.DottedReadShort`.
- Firewall zones, wireless settings, netmask arithmetic and the leaf validators: they would add only easy members.
