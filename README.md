# curl-impersonate client core, modelled in Dafny

This project models the Go client in `curl.go`, `errors.go`, `types/headers.go` and `types/flags.go`. The client drives a curl-impersonate executable:

- it keeps a preset plus the user's own headers and flags;
- it turns them into an argument list of `-H 'Name: Value'` pairs, `--name [value]` flags and the URL;
- it runs the tool with `--include` and `--silent`;
- it takes apart the tool's stdout.

That stdout holds one header section for each response in the chain (a proxy's CONNECT reply, each redirect and the final response). Each section ends with `"\r\n\r\n"`, and the last body follows. The client keeps the sections that start with `HTTP/` and parses each into header fields. It reads the status code from the first line of the last section and returns one of two things:

- a response carrying the code, the last header set, the whole chain of header sets and the body;
- a typed error: the tool's exit code, an HTTP status of 400 or more, or one of the plain errors.

Modules, one per file:

| file | module | models |
|---|---|---|
| `wrappers.dfy` | `Wrappers` | `Option` and `Result`, in place of Go's `(value, error)` pairs |
| `seqs.dfy` | `Seqs` | `bytes.Index`, `bytes.Split` and `bytes.HasPrefix` over generic sequences, plus flattening and permutation facts |
| `bytes.dfy` | `Bytes` | bytes, the delimiters, and `bytes.TrimSpace` |
| `numeric.dfy` | `Numeric` | `%d` formatting and `strconv.Atoi` for a 64-bit `int` |
| `errors.dfy` | `Errors` | the error kinds, their `Error()` texts, the exit-code table, `IsHttpError` and `IsCurlError` |
| `headers.dfy` | `HeaderStore` | `types.Headers`: a class over a map plus its insertion-ordered key list |
| `flags.dfy` | `FlagStore` | `types.Flags`: a class over a map from name to a closed datatype of values |
| `extractor.dfy` | `Extractor` | `extractAllResponses`, as a loop proved equal to a definition by `Split` |
| `responses.dfy` | `Responses` | `parseHeaders`, `getStatusCode`, the status-line code and the classification tail of `Request` |
| `curl.dfy` | `Curl` | the `Curl` struct as class `Client`, its options, `Validate` and `Request` |

Library calls the model cannot see are parameters of the members that use them:

- `canon` stands for the key canonicalisation `http.Header.Add` applies.
- `statusText` stands for `http.StatusText`.
- `resolve` stands for `os.Stat` followed by `exec.LookPath`.
- `tool` stands for `exec.Command(...).Run()` together with its captured stdout and stderr.

Two behaviours of the code are kept as written:

- The status code comes from the first `"\n"` line of the last *raw* extracted block. It does not come from the last block that parsed to a non-empty header set. Behind a proxy, that line is `HTTP/1.0 200 Connection established\r` (`Responses.ProxyLineDecides`).
- Extracted blocks are returned exactly as cut, not trimmed.

## Model

| member | source | states |
|---|---|---|
| Extractor.ExtractAllResponses | curl.go:174-212 | the scan loop returns exactly `Extract(output)`: the qualifying blocks in scan order and the bytes after the last delimiter, or the extraction error |
| Extractor.Qualifies | curl.go:193 | definition of the test a block must pass; `FilterMembers` and `ExtractShape` use it |
| Extractor.Filter | curl.go:192-196 | definition of the kept blocks; `FilterMembers` and `FilterKeepsQualifying` carry its properties |
| Extractor.Scanned | curl.go:182-200 | definition of the blocks the scan passes over; `ScanStep`, `ScanReassembles` and `ScanFramed` carry its properties |
| Extractor.Rest | curl.go:199-205 | definition of what follows the last delimiter; `ScanReassembles` and `ScanFramed` carry its properties |
| Extractor.Extract | curl.go:203-211 | failure is always the extraction error; success always holds at least one block |
| Extractor.ExtractShape | curl.go:184-196 | every returned block starts with `HTTP/`, is longer than 5 bytes once trimmed and holds no `\r\n\r\n`; the body holds none either |
| Extractor.FilterMembers | curl.go:192-196 | a block is kept exactly when it starts with `HTTP/` and its trimmed length exceeds 5 |
| Extractor.ExtractFailsIff | curl.go:207-209 | extraction fails exactly when no scanned block qualifies, and the message is then "unable to extract valid HTTP responses" |
| Extractor.UndelimitedFails | curl.go:182-187 | output with no `\r\n\r\n`, the empty output included, gives the extraction error |
| Extractor.ScanReassembles | curl.go:182-205 | the output is every scanned block, each followed by `\r\n\r\n`, then the body |
| Extractor.ScanFramed | curl.go:182-205 | framing separable blocks and a delimiter-free body, then scanning, gives back those blocks and that body |
| Extractor.ExtractFramed | curl.go:182-211 | round trip: framed qualifying blocks plus a body extract to exactly those blocks and that body |
| Extractor.SeparableIff | curl.go:184 | a block is cut back out unchanged exactly when it holds no delimiter and does not end in `\r\n` |
| Extractor.FilterKeepsQualifying | curl.go:193-196 | a run of qualifying blocks is kept whole and in order |
| Extractor.ScanStep | curl.go:184-199 | a first delimiter at `e` cuts off `output[..e]` and the scan resumes after it |
| Extractor.Advance | curl.go:189-199 | one turn of the loop keeps the scan invariant, whether the block is kept or skipped |
| Extractor.Finish | curl.go:185-187 | when no delimiter is left, the kept blocks are all of them and the rest is the body |
| Responses.FieldsOf | curl.go:224-229 | definition: the fields of a sequence of lines, skipping lines without a colon; `FieldsOfEmpty` and `ParseStep` carry its properties |
| Responses.Fields | curl.go:224-229 | definition: the fields of a block's `\r\n` lines; `NoFieldsIff` carries its properties |
| Responses.Add | curl.go:230 | definition of `Header.Add`: the value appended under the canonical name; `AccumulateValues` carries its properties |
| Responses.Accumulate | curl.go:225-231 | definition of the parse loop over a block's fields; `AccumulateValues` and `ParseStep` carry its properties |
| Responses.Piece | curl.go:142-145 | definition of the `len(header) > 0` test: a block contributes its parsed header only when it has a field; `ChainMembers` uses it |
| Responses.LineFieldIff | curl.go:226-228 | a line gives a field exactly when it holds a colon, and the name holds no colon (the cut is at the first one) |
| Responses.LineFieldTrimmed | curl.go:228-229 | name and value carry no white space at either end |
| Responses.ParseLine | curl.go:225-231 | one turn of the parse loop adds the line's trimmed field under its canonical name, or nothing |
| Responses.ParseHeaders | curl.go:222-234 | the parse loop returns exactly `Parsed(block, canon)` |
| Responses.AccumulateValues | curl.go:230 | the values under a name are the values of exactly the fields with that canonical name, in line order |
| Responses.NoFieldsIff | curl.go:222-234 | a block parses to an empty header exactly when it holds no colon |
| Responses.FieldsOfEmpty | curl.go:225-226 | a sequence of lines yields no field exactly when none holds a colon |
| Responses.ParseStep | curl.go:225-231 | the header of one more line is the previous one with that line's field added |
| Responses.GetStatusCode | curl.go:214-220 | success exactly when Atoi accepts the field, with its value; otherwise the error "invalid status code format: " + field |
| Responses.StatusCodeOfLine | curl.go:150-157 | the status-line step fails only with "unable to extract status code" or the format error; `NoSpaceMissing`, `SpaceNotMissing` and `StatusFields` say which line gives which |
| Responses.StatusFields | curl.go:150-157 | a line "version field" or "version field tail" with a space-free version and field gives exactly `GetStatusCode` of the field; a non-integer field such as `200\r` gives "invalid status code format: " + field |
| Responses.SpaceNotMissing | curl.go:150-153 | a line holding a space never gives "unable to extract status code" |
| Responses.NoSpaceMissing | curl.go:150-153 | a line with no space has fewer than two fields and gives the error "unable to extract status code" |
| Responses.StatusCode | curl.go:148-157 | definition: the status-line code of the block's first `\n` line; its properties are in `StatusFromFirstLine`, `StatusOfLine`, `NoSpaceMissing` and `ReadStatus` |
| Responses.StatusOfLine | curl.go:149-157 | a status line "version code tail" (a space-free version, the code's `%d` text, then a space) gives that code, whatever the tail holds |
| Responses.StatusFromFirstLine | curl.go:148-149 | only the first `\n` line counts; the lines after it are ignored |
| Responses.ReadStatus | curl.go:148-157 | the status-line steps compute exactly `StatusCode(block)` |
| Responses.ProxyLineDecides | curl.go:148-149 | a block behind a proxy has code 200, whatever status lines follow its first line |
| Responses.ChainConcat | curl.go:140-146 | the header list of consecutive blocks is the two lists in order |
| Responses.ChainMembers | curl.go:141-146 | the header list holds exactly the parsed headers of the blocks that have a field |
| Responses.ChainEmptyIff | curl.go:141-146 | the header list is empty exactly when no block holds a colon |
| Responses.ParseAll | curl.go:140-146 | the loop over blocks returns exactly `Chain(blocks, canon)` |
| Responses.ResponseHeaderAsWritten | curl.go:168 | definition: `headers[len(headers)-1]`, with `None` where Go panics; `AsWrittenPanicsIff` characterises when that happens |
| Responses.ResponseHeader | curl.go:166-170 | definition, corrected: the last header set, or the empty header when there is none; `ClassifyOk` and `NoContentCorrected` state what it gives |
| Responses.Classify | curl.go:132-170 | definition of the tail of Request (corrected); `ClassifyCases` and `ClassifyOk` characterise it, and `Respond` computes it |
| Responses.ClassifyAsWritten | curl.go:132-170 | definition of the same tail as written, `None` standing for the panic; `AsWrittenPanicsIff` relates it to `Classify` |
| Responses.LineField | curl.go:226-229 | definition of one line's field; `LineFieldIff` and `LineFieldTrimmed` carry its properties |
| Responses.AddLine | curl.go:226-230 | definition of one turn of the parse loop; `ParseLine` computes it and `ParseStep` chains it |
| Responses.Parsed | curl.go:222-234 | definition of parseHeaders' result; `AccumulateValues`, `NoFieldsIff` and `ParseHeaders` carry its properties |
| Responses.Chain | curl.go:140-146 | definition of the list of non-empty parsed headers; `ChainConcat`, `ChainMembers`, `ChainEmptyIff` and `ParseAll` carry its properties |
| Responses.ClassifyCases | curl.go:135-170 | the extraction error exactly when extraction fails; otherwise a status error passes through, an HTTP error exactly for codes of 400 or more (with `statusText` of the code), and a response exactly for codes below 400 |
| Responses.ClassifyOk | curl.go:159-170 | a response has a code below 400, only non-empty header sets, and the last of them as its header |
| Responses.Respond | curl.go:132-170 | the tail of Request returns exactly `Classify(output, canon, statusText)` |
| Responses.AsWrittenPanicsIff | curl.go:159-170 | the code as written fails, by indexing out of range, exactly on responses with an empty header list; everywhere else it agrees with `Classify` |
| Responses.NoContentPanics | curl.go:168 | as written, `HTTP/1.1 204 No Content\r\n\r\n` indexes past the end of the header list |
| Responses.NoContentCorrected | curl.go:166-170 | corrected, the same reply is a 204 response with an empty header, no header sets and an empty body |
| Responses.NoContentExtract | curl.go:182-211 | that reply is one block and no body |
| Responses.NoContentStatus | curl.go:148-157 | its code is 204 |
| Responses.NoContentChain | curl.go:141-146 | it parses to no header set |
| Responses.NotFoundClassified | curl.go:159-164 | a last block with code 404 is `HttpError(404, "Not Found")` when the status text is "Not Found"; its message is "HTTP Error. Not Found (404)" |
| Curl.Initial | curl.go:28-35 | definition of the struct literal: the default preset (`presets.Default()`, an empty header store and an empty flag store), empty user headers, include and silent both true, no executable, unchecked; `NewDefaults` uses it |
| Curl.Outcome | curl.go:121-170 | definition of what a run becomes; `OutcomeKinds` characterises it and `Client.Finish` computes it |
| Curl.Argv | curl.go:108-114 | definition of the argument list; `ArgvShape` states its layout and `Client.Arguments` computes it |
| Curl.Validation | curl.go:77-90 | definition of Validate's effect; `ValidationIff` characterises it and `Client.Validate` computes it |
| Curl.NewConfig | curl.go:27-44 | definition of New's state; `NewDefaults` characterises it and `Client.constructor` builds it |
| Curl.ApplyOption | curl.go:52-75 | definition of one option's effect; `BinaryClearsValid` states Binary's and `Client.Apply` computes it |
| Curl.ApplyAll | curl.go:46-50 | definition of Set's effect; `ApplyAllKeepsUnchecked` states what it keeps and `Client.Set` computes it |
| Curl.OutcomeKinds | curl.go:121-130 | a failed exit is the tool error carrying its exit code, which its message gives back; a failure to run is the plain error naming the cause and stderr; a finished run is classified |
| Curl.Client.Finish | curl.go:121-135 | the run is turned into exactly `Outcome(run, ...)` |
| Curl.ArgvShape | curl.go:108-114 | the argument list is the preset's `-H` pairs, the user's pairs, the preset's flags, the user's flags, then the URL as the last token |
| Curl.Client.Arguments | curl.go:108-114 | the argument list is `Argv` of the preset's headers in insertion order, and of enumerations of the user's headers and both flag maps, with the URL as the last token |
| Curl.Client.Request | curl.go:101-171 | an unchecked executable is checked first; a failed lookup returns its error with no argument list; otherwise the tool runs with the argument list and the result is `Outcome` of the run |
| Curl.Client.Validate | curl.go:77-90 | the mark is set exactly when the executable is found; a search-path hit replaces its name by the full path |
| Curl.ValidationIff | curl.go:77-90 | the check returns no error exactly when the executable is found, and exactly then sets the mark; a failed search returns its cause; the stores are untouched |
| Curl.NewDefaults | curl.go:27-44 | a new client is unchecked and always has an executable: "curl" unless an option names one; without flag options its flags are exactly include and silent, both true |
| Curl.Client.constructor | curl.go:27-44 | New: default preset, empty headers, the two default flags, the options applied, then "curl" when no executable was named; the user's stores are new and not the preset's, so the client's setters can be called on it |
| Curl.BinaryClearsValid | curl.go:70-75 | Binary sets the executable and clears the checked mark, and changes nothing else |
| Curl.ApplyAllKeepsUnchecked | curl.go:46-50 | applying options never sets the checked mark |
| Curl.Client.Set | curl.go:46-50 | the options are applied one after another, in order |
| Curl.Client.Apply | curl.go:52-75 | one option: Header and Flag update the user's stores, Preset replaces the preset, Binary renames the executable and clears the mark |
| Curl.Client.SetHeader | curl.go:92-94 | the user's header store is upserted with k = v; nothing else changes |
| Curl.Client.SetFlag | curl.go:96-98 | the user's flag store maps name to v; nothing else changes |
| Errors.ExitDescription | errors.go:22-25 | definition: the table's description of a code, or "Unknown error" when it has none; `CurlMessageIs` and `UnknownExitMessage` use it |
| Errors.Message | errors.go:17-26 | definition of each error's text; `CurlMessageIs`, `CodeInMessageRoundTrip`, `TypedErrorsDistinct` and the message lemmas carry its properties |
| Errors.CurlExitCodes | errors.go:38-96 | definition: the exit-code table, entry by entry; `Unlisted`, `ResolveHostMessage` and `TimeoutMessage` state facts about it |
| Errors.IsHttpError | errors.go:28-31 | definition: the error is an HTTP error; `TypedErrorsDistinct` and `OutcomeKinds` use it |
| Errors.IsCurlError | errors.go:33-36 | definition: the error is a tool error; `TypedErrorsDistinct` and `OutcomeKinds` use it |
| Errors.ExitCodeInMessage | errors.go:21-26 | a tool error's message ends in "(" + code + ")", and the code reads back from it |
| Errors.StatusCodeInMessage | errors.go:17-19 | an HTTP error's message ends in "(" + code + ")", and the code reads back from it |
| Errors.CodeInMessageRoundTrip | errors.go:17-26 | both typed errors carry their code in the message, recoverable from it |
| Errors.CurlMessageIs | errors.go:21-24 | a tool error's message is "Curl Error. " + description + " (" + code + ")" |
| Errors.ResolveHostMessage | errors.go:21-24 | code 6 gives "Curl Error. Couldn't resolve host. (6)" |
| Errors.TimeoutMessage | errors.go:21-24 | code 28 gives "Curl Error. Operation timeout. (28)" |
| Errors.UnknownExitMessage | errors.go:25 | a code outside the table gives "Curl Error. Unknown error (" + code + ")", with no period after "error" |
| Errors.Unlisted | errors.go:38-96 | the table lists nothing below 0, nothing from 9 to 21 and nothing from 97 on, so every key lies in 0..96 |
| Errors.NotFoundMessage | errors.go:17-19 | `HttpError(404, "Not Found")` has the message "HTTP Error. Not Found (404)" |
| Errors.TypedErrorsDistinct | errors.go:28-36 | no error is both typed kinds; their messages start with "HTTP Error. " and "Curl Error. " respectively |
| HeaderStore.Upsert | types/headers.go:34-40 | Set keeps the invariant, stores v under k, appends k only when it is new, and leaves the key list unchanged otherwise |
| HeaderStore.Apply | types/headers.go:28-32 | SetHeaders keeps the invariant and only extends the key list |
| HeaderStore.ApplyConcat | types/headers.go:28-32 | applying two runs of setters in turn equals applying their concatenation |
| HeaderStore.ApplyLastWins | types/headers.go:28-32 | the last setter for a name decides its value |
| HeaderStore.ApplyUntouched | types/headers.go:28-32 | a name no setter mentions keeps its presence and value |
| HeaderStore.ResetKeepsPosition | types/headers.go:34-40 | a later setter for a listed name leaves the key list, and so its position, unchanged |
| HeaderStore.Lookup | types/headers.go:42-44 | an absent name gives "" |
| HeaderStore.Quoted | types/headers.go:50-54 | definition of the quoted `'k: v'` token; `QuotedShape` and `UnquoteQuoted` carry its properties |
| HeaderStore.HeaderArgs | types/headers.go:49-55 | definition of the `-H` tokens of a sequence of headers; `HeaderArgsAt`, `HeaderArgsLength` and `UnpackHeaderArgs` carry its properties |
| HeaderStore.Entries | types/headers.go:53-54 | definition of the store's pairs in key-list order, Go's zero value for a missing key; `EntriesAreItems` carries its properties |
| HeaderStore.QuotedShape | types/headers.go:51 | the token is `'`, the name, `: `, the value and `'`, so name and value stand at known positions |
| HeaderStore.Unquote | types/headers.go:50-54 | definition of reading a token back: quotes stripped, cut at the first `: `; the inverse of `Quoted` |
| HeaderStore.UnquoteQuoted | types/headers.go:50-54 | round trip: the token of a name without a colon reads back as exactly that name and value |
| HeaderStore.Unpack | types/headers.go:46-58 | definition of reading an argument list of `-H` pairs back into headers |
| HeaderStore.UnpackSnoc | types/headers.go:50 | one more `-H` pair reads back as one more header after the others |
| HeaderStore.UnpackHeaderArgs | types/headers.go:46-58 | round trip: the arguments of any sequence of headers with colon-free names read back as that sequence |
| HeaderStore.GeneratedReparses | types/headers.go:46-58 | the arguments of either mode read back: in key-list order as the entries in that order, in any enumeration as exactly the map's pairs, each once |
| HeaderStore.GeneratedArgs | types/headers.go:46-58 | either mode emits two tokens per key, and with colon-free names they read back as a permutation of the key-list entries |
| HeaderStore.HeaderArgsAt | types/headers.go:53-55 | two tokens per header: "-H" at each even position, the quoted header after it |
| HeaderStore.EntriesAreItems | types/headers.go:19-26 | the entries in key-list order are distinct and exactly the map's pairs |
| HeaderStore.ShuffledIsPermutation | types/headers.go:46-58 | any enumeration of the map is a permutation of key-list order, so both modes emit the same tokens, 2 per key |
| HeaderStore.ShuffledArgs | types/headers.go:48-50 | a shuffled enumeration has one entry per key and emits a permutation of the ordered tokens |
| HeaderStore.Headers.constructor | types/headers.go:19-26 | NewHeaders: the invariant holds, and the contents are the setters applied to the empty store |
| HeaderStore.Headers.SetHeaders | types/headers.go:28-32 | the setters are applied in order, and the invariant is kept |
| HeaderStore.Headers.Set | types/headers.go:34-40 | the contents become `Upsert(old, k, v)`, and the invariant is kept |
| HeaderStore.Headers.Get | types/headers.go:42-44 | the value under k, or "" |
| HeaderStore.Headers.Generate | types/headers.go:46-58 | unshuffled: the "-H" pairs in key-list order; shuffled: the pairs of some enumeration of the map; two tokens per key either way; with colon-free names the result reads back as the store's pairs (in key-list order when unshuffled) |
| HeaderStore.Headers.GenerateShuffled | types/headers.go:48-51 | the loop over the map emits the pairs of the enumeration it took |
| HeaderStore.Headers.GenerateOrdered | types/headers.go:52-55 | the loop over the key list emits the pairs in key-list order |
| FlagStore.AssignAll | types/flags.go:25-29 | definition of SetFlags' effect; `AssignAllLastWins` and `AssignAllUntouched` carry its properties |
| FlagStore.FlagArgs | types/flags.go:36-54 | definition of the tokens of a sequence of flags; `FlagArgsAround` and `Tokens` carry its properties |
| FlagStore.AssignAllLastWins | types/flags.go:25-29 | the last setter for a name decides its value |
| FlagStore.AssignAllUntouched | types/flags.go:25-29 | a name no setter mentions keeps its presence and value |
| FlagStore.Tokens | types/flags.go:38-53 | nil and true give the bare "--name"; false gives nothing; int, float and string give "--name" then the value's text (an int's reads back with Atoi); never "--name=value" |
| FlagStore.FlagArgsAround | types/flags.go:36-54 | each flag contributes its tokens in one contiguous run, between those of the flags before and after it |
| FlagStore.EnumeratedNamesDistinct | types/flags.go:37 | in any enumeration of the map, no name occurs twice, so each flag contributes exactly once |
| FlagStore.Flags.constructor | types/flags.go:17-23 | NewFlags: the setters applied to the empty map |
| FlagStore.Flags.SetFlags | types/flags.go:25-29 | the setters are applied in order |
| FlagStore.Flags.Set | types/flags.go:31-33 | name now maps to v, and every other entry is unchanged |
| FlagStore.Flags.Generate | types/flags.go:35-57 | the tokens of every flag, in the order of some enumeration of the map |
| Numeric.Atoi | curl.go:215 | definition of `strconv.Atoi` on 64-bit ints; `AtoiDecimal` and `AtoiRejects` carry its properties |
| Numeric.AtoiDecimal | types/flags.go:46 | `strconv.Atoi` reads back what `%d` writes, for every 64-bit int |
| Numeric.AtoiRejects | curl.go:215-218 | a character that is not a digit, other than a leading sign, makes Atoi fail |
| Numeric.Decimal | errors.go:18 | `%d` gives digits, after a minus sign exactly for negative numbers |
| Bytes.TrimSpace | curl.go:193 | definition of ASCII white-space trimming; the `TrimSpace*` lemmas carry its properties |
| Bytes.ToText | curl.go:155 | definition of `string(...)` on bytes: one character per byte; `TextOfBytes` inverts it on Latin-1 text |
| Bytes.TrimSpaceShape | curl.go:193 | the trimmed bytes are empty, or start and end with bytes that are not white space |
| Bytes.TrimSpaceWindow | curl.go:228-229 | the trimmed bytes are a contiguous window of the input |
| Bytes.TrimSpaceOutside | curl.go:228-229 | everything outside the window is white space |
| Bytes.TrimSpaceEmptyIff | curl.go:193 | trimming leaves nothing exactly when the input is all white space |
| Bytes.TrimSpaceIdempotent | curl.go:228-229 | trimming twice is trimming once |
| Seqs.Find | curl.go:184 | `bytes.Index`: -1 or the position of an occurrence, with no occurrence before it |
| Seqs.Split | curl.go:224 | `bytes.Split`: always at least one piece; `SplitJoinBack`, `SplitFree` and `SplitJoin` carry its properties |
| Seqs.SplitJoinBack | curl.go:224 | `bytes.Split` loses nothing: joining the pieces with the separator gives the input back |
| Seqs.SplitFree | curl.go:224 | no piece of a split holds the separator |
| Seqs.SplitJoin | curl.go:150 | splitting undoes joining when the inner pieces are separable and the last holds no separator |
| Seqs.KeepMembers | curl.go:193-196 | what is kept is exactly the elements that satisfy the test |

## Left out

- `bytes.TrimSpace` and `strings.TrimSpace` also trim multi-byte Unicode white space. The model trims only the ASCII white space `\t \n \v \f \r` and space.
- `http.Header.Add` canonicalises keys with `textproto.CanonicalMIMEHeaderKey`, and `http.StatusText` is Go's table of reason phrases. Both are foreign library code. Here they are the parameters `canon` and `statusText`; the one fact used about `statusText` is 404 ↦ "Not Found", as an explicit precondition.
- `os.Stat`, `exec.LookPath`, `exec.Command`, `cmd.Run` and the stdout/stderr buffers are I/O. The outcome of the lookup is the `Resolution` datatype, and the outcome of running the tool is the `Run` datatype. An exit caused by a signal reports code -1 in Go; `Exited` carries whatever code is given, 0 included, although Go reports a zero exit as success (`Finished`).
- `Curl.Client.Request` returns the argument list it passes to the tool as a second result. The Go method has no such result; it passes the list to `exec.Command`.
- `Curl.Client.Arguments` builds the argument list in one concatenation, not five appends. The value is the same, and slice aliasing does not arise.
- Building `http.Response` and `io.NopCloser` is left out. A response is the `Response` datatype, with the body as bytes.
- `%.4f` float formatting is floating point. A float flag carries its rendered text (`FlagValue.Float`).
- The "Unsupported type of flag" panic cannot be reached. Flag values are a closed datatype, and Go's `int` is a 64-bit integer.
- `errors.As` also finds wrapped errors. The model has no wrapping, so `IsHttpError` and `IsCurlError` test the error's own kind.
- Curl.NewDefaults: holds for the four option constructors the package provides (Header, Flag, Preset, Binary). Go's `Option` is an open function type, so a caller's own option, such as one that calls `Validate`, can return a checked client; the model's `CurlOption` is closed to those four.
- Curl.ApplyAllKeepsUnchecked: for the same reason, "applying options never sets the checked mark" holds only for the four built-in options.
- `presets/preset.go` is left out except as the `PresetOption` option:
  - its browser fingerprint data is not modelled;
  - `presets.Random` picks with `math/rand`, which is not modelled;
  - a preset is given by the header and flag setters that build it.
- Go's map iteration order is unspecified. `Headers.Generate(true)` and `Flags.Generate` are specified for every enumeration of the map, through a ghost `order` result, and never for one fixed order.
- Header names and values in parsed responses stay bytes (Go's `string(bytes)` copies them unchanged). Status-code fields become text with one character per byte.

## Findings

| source | as written | input that shows it | evidently intended | confidence | as-written member | corrected member |
|---|---|---|---|---|---|---|
| curl.go:168 | `headers[len(headers)-1]` indexes the list of non-empty parsed headers without checking that it is non-empty | stdout `HTTP/1.1 204 No Content\r\n\r\n`: one qualifying block, code 204, no header field, so `headers` is empty and the index is -1 (a runtime panic) | return the response with an empty header when no block has a field | not executed | Responses.NoContentPanics | Responses.ClassifyOk |

The as-written behaviour is `Responses.ClassifyAsWritten`, which gives `None` where Go panics. `Responses.AsWrittenPanicsIff` characterises exactly when that happens. The corrected behaviour is `Responses.Classify`, which uses `Responses.ResponseHeader` and never fails on that input (`Responses.NoContentCorrected`). The rest of the model uses the corrected behaviour.
