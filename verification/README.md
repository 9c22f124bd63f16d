# simple_http / HLS server core in Dafny

This project models the core of a small C++ HTTP/1.1 server and of the HLS
(HTTP Live Streaming) service built on it, and proves properties of the model.
The parts it covers:

- **Byte views** (`http::string`). A non-owning view of a buffer is modelled as
  `HttpString.Span(buf, off, len)`. `trim` and `cut_by` become methods and
  functions that return the narrowed view. `split` has a stated contract,
  because http/string.h declares it and http/string.cpp does not define it.
- **Request targets** (`http::uri`). A target is split into path items and
  `key=value` query items, together with the validity rules.
- **The request parser** (`http::worker` with `request_helper`). It is a state
  machine over a request record: method, then URI, then version, then headers,
  then body, then response. It is modelled as:
  - a value function `Parser.Step` for one token;
  - a function `Parser.AfterRead` for one read;
  - a `Request.Request` class whose methods (`Worker.GoNext`,
    `Worker.HandleIn`, ...) are proved equal to those functions.
- **The resumable writers** (`response_reader`, `request_reader`). Each builds
  a header block and sends it, then the body, through a three-phase cursor
  (`Message`). Both readers are classes whose `Next` advances the cursor.
- **API routing** (`api`). The route and the `hls_context` are decided from the
  method, the path items, the query items and the `X-HLS-*` headers.
- **The live chunk store** (`hls_live_storage`). A deque holds chunks with
  consecutive sequence numbers. Gaps are filled with dummy chunks. A chunk can
  be prepended, can replace one in the middle, can be appended, or can clear
  the deque on a jump. The deque is trimmed to a capacity, and its playlist
  text lists the newest `live_size` entries.
- **The earlier application front end** (`application.cpp`). It has its own
  copy of the deque update and the upload handler.
- **The archive playlist generator.** It fills time gaps greedily with dummy
  segments, in integer milliseconds.

Sockets, `read`/`write`, the clock and files are not modelled. They are
replaced by parameters:
- the bytes one `read` returned;
- the outcome of opening and sizing a body file (`Message.FileStat`);
- the recorded chunk list;
- `std::stoi` as a function parameter.

## Model

| member | source | states |
|---|---|---|
| HttpString.Whole | http/string.cpp:9-13 | a view over a whole buffer holds exactly that buffer's bytes |
| HttpString.Empty | http/string.cpp:15-18 | a view is empty exactly when it holds no bytes |
| HttpString.Size | http/string.cpp:20-23 | the size is the number of bytes the view holds |
| HttpString.IndexOf | http/string.cpp:30-38 | the result is -1 exactly when the byte is absent; otherwise it is the position of the first occurrence, with no earlier occurrence |
| HttpString.Find | http/string.cpp:30-38 | the loop returns the smallest index holding `ch`, or -1 exactly when no byte equals `ch` |
| HttpString.Trimmed | http/string.cpp:40-50 | trimming gives a sub-view of the same buffer that lies inside the original |
| HttpString.TrimmedRight | http/string.cpp:47-49 | the right-hand loop keeps the start and only shortens the view |
| HttpString.TrimmedRightStripsOnlySpaces | http/string.cpp:47-49 | after the right-hand loop, the last byte is not a space and every dropped byte is a space |
| HttpString.TrimStripsOnlySpaces | http/string.cpp:40-50 | the trimmed view is a contiguous slice of the original whose ends are not spaces; every byte dropped on either side is a space, and the inner bytes are unchanged |
| HttpString.TrimmedEnds | http/string.cpp:40-50 | neither end of the trimmed view is a space, and only spaces were removed at both ends |
| HttpString.Trim | http/string.cpp:40-50 | the two in-place loops produce exactly the trimmed view |
| HttpString.SubTo | http/string.cpp:52-69 | the result is either the empty view or a proper prefix of the input with at least one byte |
| HttpString.SubToSpec | http/string.cpp:52-69 | the result is empty when the view is empty, starts with `ch` or lacks `ch`; otherwise it is exactly the bytes before the first `ch` |
| HttpString.CutBy | http/string.cpp:71-83 | the cut-off part is empty or a prefix; the remaining view always ends where the original ended |
| HttpString.CutBySpec | http/string.cpp:71-83 | if `ch` occurs, cut ++ [ch] ++ rest == original and the cut has no `ch`; if it does not occur, the cut is empty and the view is unchanged; a leading `ch` gives an empty cut and drops exactly that byte |
| HttpString.CutFound | http/string.cpp:71-77 | when `sub_to` finds a prefix, the view advances past `ch` and returned ++ [ch] ++ new view == old view |
| HttpString.CutLeading | http/string.cpp:78-81 | a view that begins with `ch` returns an empty cut and loses exactly its first byte |
| HttpString.Split | http/string.h:27 | (assumed contract) the items are non-empty views into the same buffer with no `ch` in them, and together they hold the input without its `ch` bytes, in order; there are no items exactly when the input is all `ch` |
| HttpString.SplitFound | http/string.h:27 | a first item that ends before the first `ch`, followed by the split of the rest, is again a valid split of the whole |
| HttpString.SplitLeadingDelimiter | http/string.h:27 | dropping a leading `ch` does not change what a split must hold |
| HttpString.SplitItem | http/string.h:27 | a cut item followed by the split of what remains after `ch` is a split of the whole view |
| HttpString.SplitLastItem | http/string.h:27 | a non-empty view without `ch` splits into itself |
| HttpString.IntValue | http/string.cpp:85-105 | ok holds exactly when the bytes are non-empty and all digits; then the value is their decimal value; an empty input gives 0 |
| HttpString.DigitRun | http/string.cpp:95-102 | the loop stops at the end of the longest all-digit prefix |
| HttpString.DigitRunIsMaximal | http/string.cpp:95-102 | any all-digit prefix that is followed by a non-digit (or by the end) is the digit run |
| HttpString.ToInt | http/string.cpp:85-105 | ok holds exactly when the view is non-empty and all digits; then the result is the decimal value of the digits; an empty view gives 0 with ok false |
| Common.NatToString | src/http/response_reader.cpp:47 | the decimal text of a number is non-empty digits, has no leading zero, and reads back as that number |
| Common.IntToString | hls_live_storage/hls_live_storage.cpp:186 | `std::to_string`: a non-negative number is its decimal text; a negative one is '-' followed by the text of its magnitude |
| Uri.TargetParts | http/uri.cpp:17-31 | without '?', the trimmed target is the path and the query is empty; with a leading '?', the rest is the path; otherwise path ++ "?" ++ query == target, the path is non-empty and has no '?' |
| Uri.Pairs | http/uri.cpp:40-44 | an empty query has no pairs; otherwise every pair is non-empty, and the whole query is used when the split on '&' is empty |
| Uri.Items | http/uri.cpp:48-49 | each pair gives exactly one key/value cut |
| Uri.GoodItemSplitsPair | http/uri.cpp:49-50 | a pair with non-empty key and value is key ++ "=" ++ value, and the key holds no '=' |
| Uri.ParsePairs | http/uri.cpp:48-55 | it succeeds exactly when every pair has a non-empty key and value, and then keeps all of them in order; in every case it keeps a prefix of them, each good |
| Uri.ParsePairsStops | http/uri.cpp:50-54 | the first bad pair stops the loop, with the good pairs before it kept and the URI marked invalid |
| Uri.CutPairs | http/uri.cpp:48-55 | the loop computes exactly `ParsePairs` of the cut pairs |
| Uri.ParseTargetSpec | http/uri.cpp:13-59 | the URI is valid exactly when the path part holds a byte other than '/' and every query pair is good; then the path items are the path without its '/' bytes and the query items are all the pairs in order |
| Uri.BlankTargetInvalid | http/uri.cpp:17-28 | a target that is empty after trimming spaces gives an invalid URI with no path items |
| Uri.FindQueryItem | api/api.cpp:269-273 | (assumed contract) with no item for the key the result is empty; otherwise it is the value of an item with that key |
| Uri.FindQueryItemFirst | api/api.cpp:269-273 | when several items share the key, the first one's value is returned |
| Uri.Uri.constructor | http/uri.cpp:13-59 | the object's validity flag, path items and query items are those of `ParseTarget` of the buffer |
| Uri.Uri.IsValid | http/uri.cpp:61-64 | returns the validity flag |
| Request.StatusCodeToStr | http/request.cpp:7-20 | 200, 400, 404 and 500 get their reason phrases; the result is "Unknow" exactly for every other code |
| Request.StrToRequestMethod | http/request.cpp:22-35 | the method is POST exactly for a case-insensitive "post" and GET exactly for a case-insensitive "get"; otherwise none |
| Request.BuffAppended | http/request.cpp:37-59 | on the first append the buffer becomes the input; later appends give old ++ input, and the size grows by exactly the input size; a first input starting with byte 0 reports failure; no other field changes |
| Request.BuffAppendedTwice | http/request.cpp:47-57 | appending two runs one after the other gives the same buffer as appending their concatenation |
| Request.Request.constructor | http/request.h:111-128 | a new record is in `read_line`/`wait_sp`, with no buffer, no headers and every flag clear |
| Request.Request.BuffAppend | http/request.cpp:37-59 | the method changes the record exactly as `BuffAppended` says, and leaves the token flags alone |
| Request.RequestBody.constructor | http/request.h:72-77 | a new body has no buffer and the given wait size |
| Request.RequestBody.Append | http/request.cpp:61-82 | it copies min(input size, `wait_size - buff_size`) bytes, so the buffer never exceeds `wait_size`; it returns true exactly when a byte was copied; a first input starting with byte 0 fails |
| Parser.SkipSeparators | http/worker.cpp:352-357 | the result is the first index at or after `from` that is not a space or ':', and every byte skipped is one |
| Parser.KeyEnd | http/worker.cpp:339-344 | the key runs up to the first space or ':' |
| Parser.SplitHeaderSpec | http/worker.cpp:335-367 | the header is left undefined exactly when a non-empty line has no separator; the key is empty exactly when the line is empty or starts with a separator; otherwise key ++ separators ++ value == line, and the value does not start with a separator |
| Parser.ConvertFrom | http/worker.cpp:106-115 | the digit loop that resumes mid-way converts exactly all-digit input to its decimal value, and reports a non-digit only for input that is not all digits |
| Parser.ConvertSpec | http/worker.cpp:106-121 | a conversion succeeds with the decimal value on all-digit input short of `int` overflow, and "not a digit" means the value is not all digits |
| Parser.Scan | http/worker.cpp:190-239 | the scanning loop never moves the token start backwards or past the input |
| Parser.Process | http/worker.cpp:217-238 | one loop iteration never moves the token start backwards or past the input |
| Parser.StatusLine | http/worker.cpp:261-268 | the block `handle_out` writes starts with "HTTP/1.1 " and ends with an empty line; what it reads back as is stated by ParserProps.StatusBlockReadsBack |
| Parser.Framed | http/worker.cpp:261-268 | a status line and an optional CRLF-terminated line, closed by CRLF, form such a block |
| ParserProps.InitialValid | http/request.h:111-128 | the initial record satisfies the parser invariant |
| ParserProps.StepKeepsValid | http/worker.cpp:60-173 | every `go_next` step keeps the invariant: the state and the wait mode agree, a body is awaited only for a POST still short of its declared size, and the handler is called at most once and only in `write_response` |
| ParserProps.LineStepKeepsValid | http/worker.cpp:63-91 | a request-line token keeps the invariant |
| ParserProps.HeaderLineKeepsValid | http/worker.cpp:93-128 | a header line keeps the invariant |
| ParserProps.BlankLineKeepsValid | http/worker.cpp:129-149 | the blank line keeps the invariant |
| ParserProps.BodyStepKeepsValid | http/worker.cpp:154-166 | a body token keeps the invariant |
| ParserProps.UnknownMethodRejected | http/worker.cpp:65-71 | a method token other than GET/POST ends parsing with 400 in `write_response`/`wait_none` |
| ParserProps.RequestLineOrder | http/worker.cpp:63-88 | method (wait for space), then uri (wait for space), then version (wait for CRLF), then the headers, each token stored in its field |
| ParserProps.ContentLengthRead | http/worker.cpp:96-118 | a "Content-Length" line (any case), separators and a decimal number sets the declared body size to that number and changes nothing else |
| ParserProps.ContentLengthNotDigit | http/worker.cpp:105-121 | a Content-Length value with a non-digit ends parsing with 400 |
| ParserProps.HeaderStored | http/worker.cpp:123-127 | another header adds its key unless the key is empty or already present; the first value is kept and nothing else changes |
| ParserProps.BlankLinePostWithBody | http/worker.cpp:130-134 | the blank line after a POST with a declared size moves to `read_body`/`wait_all` |
| ParserProps.BlankLineGet | http/worker.cpp:139-141 | the blank line after a GET without a body succeeds: the buffer becomes the body and the handler is called once |
| ParserProps.BlankLineRejected | http/worker.cpp:130-145 | a POST without a size, or a GET with one, ends with 400 and no handler call |
| ParserProps.BlankLineNeverFaults | http/worker.cpp:129-149 | with the invariant, the blank line never reaches the `none`-method assertion |
| ParserProps.BodyCompletes | http/worker.cpp:154-165 | body bytes are appended and counted; once the count reaches the declared size, the buffer becomes the body and the handler is called once; before that, parsing stays in `read_body` |
| ParserProps.ScanSpaceToken | http/worker.cpp:190-195 | in `wait_sp`, the bytes up to the next space form the token handed to `go_next`, and the space is stripped |
| ParserProps.ScanCrlfToken | http/worker.cpp:196-210 | in `wait_crlf`, the bytes up to the next CR LF form the token, and the CR LF is stripped |
| ParserProps.ScanCrlfSkips | http/worker.cpp:196-201 | in `wait_crlf`, bytes other than CR are skipped without effect |
| ParserProps.ScanKeepsValid | http/worker.cpp:189-239 | the whole scanning loop keeps the parser invariant |
| ParserProps.ProcessKeepsValid | http/worker.cpp:217-238 | one loop iteration keeps the invariant |
| ParserProps.DeliverKeepsValid | http/worker.cpp:217-238 | handing a finished token to `go_next` keeps the invariant |
| ParserProps.AfterReadKeepsValid | http/worker.cpp:175-253 | a whole `handle_in` keeps the invariant, and does nothing once the response is due |
| ParserProps.GetRequestLine | http/worker.cpp:190-238 | "GET / HTTP/1.1\r\n" read in one go leaves method GET, target "/", version "HTTP/1.1", in `read_headers` |
| ParserProps.GetInOneRead | http/worker.cpp:175-253 | a complete GET request in one read reaches `write_response` with one handler call and no fault |
| ParserProps.MethodAndTarget | http/worker.cpp:190-195 | "GET / " yields method GET and target "/" |
| ParserProps.GetToken | http/worker.cpp:65-76 | "GET " yields method GET and waits for the target |
| ParserProps.SlashToken | http/worker.cpp:77-82 | "/ " after the method yields target "/" and waits for CRLF |
| ParserProps.VersionUpToCr | http/worker.cpp:196-201 | a read that ends in CR only records that a CR was seen |
| ParserProps.CrAtEndOfRead | http/worker.cpp:196-201 | a request line split just after its CR keeps `got_cr` for the next read |
| ParserProps.SplitReadDropsByte | http/worker.cpp:241 | a read of one byte is dropped, so "G" then "ET / HTTP/1.1…" is rejected with 400 |
| ParserProps.SplitCrlfFaults | http/worker.cpp:197-222 | a CR LF split across two reads makes the token length underflow |
| ParserProps.LfAtStartFaults | http/worker.cpp:202-222 | an LF first in a read after a CR makes the token length underflow |
| ParserProps.StatusBlockReadsBack | http/worker.cpp:261-268 | read back line by line, the `handle_out` block is the status line, then the Content-Length line exactly when a body is set, then the empty line |
| ParserProps.LengthLineParsed | http/worker.cpp:265 | the Content-Length line of that block, given to the server's own header parser, sets the declared body size to the body size and changes nothing else |
| ParserProps.ScanCrNotLf | http/worker.cpp:202-209 | in `wait_crlf`, a noted CR followed by a byte other than LF is forgotten and scanning continues at the next byte within the same token |
| ParserProps.ScanCrlfTokenWithCr | http/worker.cpp:196-238 | in `wait_crlf`, the bytes up to the first CR LF form the token, even when stray CRs precede it, and the CR LF is stripped |
| ParserProps.StrayCrInVersion | http/worker.cpp:202-209 | "GET / HTTP/1.1" CR "X" CR LF CR LF in one read reaches the handler once, with the stray CR kept inside the version |
| ParserProps.PostHeadScanned | http/worker.cpp:190-239 | the loop reads a whole POST head and stops in `wait_all` right after its empty line, whatever follows in the same read |
| ParserProps.PostInOneRead | http/worker.cpp:241-251 | in `wait_all`, the rest of the read after the head becomes the body: a rest of at most one byte is dropped; a zero first byte fails with 500; a rest reaching the declared size completes the request with the rest as body and one handler call; a shorter rest is buffered and counted |
| ParserProps.PostAbInOneRead | http/worker.cpp:175-253 | a POST declaring 2 bytes followed by "ab" in one read reaches the handler once with body "ab" |
| ParserProps.OneByteBodyDropped | http/worker.cpp:241 | (as written) a one-byte body in the same read as its head is dropped, and the request keeps waiting with nothing received |
| ParserProps.TailBuffered | http/worker.cpp:241-251 | bytes after the last token, when more than one, are kept in the request buffer |
| Worker.GoFinalSuccess | http/worker.cpp:38-48 | the buffer becomes the body, the response is due and the handler is called once |
| Worker.GoFinalError | http/worker.cpp:50-58 | the response is due with the given code and the buffer is freed after close |
| Worker.SkipSeparatorsFrom | http/worker.cpp:352-357 | the loop computes `SkipSeparators` |
| Worker.ParseHeader | http/worker.cpp:335-367 | the two loops compute `SplitHeader` |
| Worker.ConvertDigits | http/worker.cpp:106-115 | the digit loop computes `Convert` |
| Worker.LineToken | http/worker.cpp:63-91 | the record changes exactly as `Step` says for a request-line token |
| Worker.MethodToken | http/worker.cpp:65-76 | as `Step` for a method token |
| Worker.UriToken | http/worker.cpp:77-82 | as `Step` for a target token |
| Worker.VersionToken | http/worker.cpp:83-88 | as `Step` for a version token |
| Worker.ContentLengthToken | http/worker.cpp:96-122 | as `HeaderLine` for a Content-Length line |
| Worker.OtherHeaderToken | http/worker.cpp:123-127 | as `HeaderLine` for any other header line |
| Worker.BlankLineToken | http/worker.cpp:129-149 | as `BlankLine` |
| Worker.BodyToken | http/worker.cpp:154-166 | as `Step` for a body token |
| Worker.GoNext | http/worker.cpp:60-173 | `go_next` changes the record exactly as `Step` says, and leaves the token flags alone |
| Worker.ClearFlags | http/worker.cpp:234-237 | the token flags are cleared and nothing else changes |
| Worker.ProcessAt | http/worker.cpp:190-238 | one loop iteration does what `Process` says, and stops only at `wait_all`/`wait_none` or on a fault |
| Worker.DeliverToken | http/worker.cpp:217-238 | handing over a finished token does what `Process` says |
| Worker.KeepRest | http/worker.cpp:241-252 | the code after the loop does what `Tail` says |
| Worker.HandleIn | http/worker.cpp:175-253 | `handle_in` on the bytes of one read leaves the record and flags given by `AfterRead` |
| Message.BodySize | src/http/response_reader.cpp:18-37 | there is no size exactly when a file body cannot be opened or sized; a message without a body has size 0 |
| Message.MemoryBodySize | src/http/response_reader.cpp:33-37 | an in-memory body's size is its length, and a string body is not empty |
| Message.HeaderLines | src/http/response_reader.cpp:41-43 | no headers give no text; each header adds at least ": " and CRLF; what the lines read back as is stated by Message.HeaderLinesRead |
| Message.HeaderLinesRead | src/http/response_reader.cpp:41-43 | when no key or value holds a CR, the header text reads back as one `key: value` line per header, in order, followed by the lines of what comes after |
| Message.StatusTextReadsBack | src/http/response_reader.cpp:40 | a status line gives back its code and phrase: after "HTTP/1.1 ", the bytes before the next space are digits whose value is the code, and the bytes after that space are the phrase |
| Message.ContentLengthLine | src/http/response_reader.cpp:46-47 | the Content-Length line is absent exactly for an empty body |
| Message.Advance | src/http/response_reader.cpp:119-147 | `next` keeps the cursor consistent |
| Message.AdvanceConsumes | src/http/response_reader.cpp:119-147 | `next(k)` with k up to the chunk size lowers what remains by exactly k; the phase only moves forward, leaving the line or body exactly when its chunk is used up |
| Message.NothingLeft | src/http/response_reader.cpp:136-143 | a phase with nothing left is an empty body, which a `next(0)` ends |
| Message.Drain | src/http/response_reader.cpp:119-147 | any run of `next` calls keeps the cursor consistent |
| Message.DrainConsumes | src/http/response_reader.cpp:119-147 | the accepted counts plus what remains equal what remained before; from the start to `read_none` they add up to the block size plus the body size |
| Message.Ones | src/http/response_reader.cpp:119-147 | a run of n single-byte `next` calls |
| Message.OneByteAtATime | src/http/response_reader.cpp:119-147 | sending one byte at a time is always accepted and drains the message, ending in `read_none` or in an empty body |
| ResponseReader.StatusCodeToStr | src/http/response_reader.cpp:150-167 | 200, 400, 404, 411, 413 and 500 get their phrases; the result is "Unknow" exactly for any other code |
| ResponseReader.StatusLine | src/http/response_reader.cpp:40 | the status line starts with "HTTP/1.1 "; its code and phrase read back as stated by Message.StatusTextReadsBack |
| ResponseReader.BodyLines | src/http/response_reader.cpp:46-65 | a non-empty body adds lines ending in CRLF; an empty one adds nothing |
| ResponseReader.Head | src/http/response_reader.cpp:39-68 | the block starts with "HTTP/1.1 " and ends with an empty line; its lines are stated by ResponseReader.HeadReadsBack |
| ResponseReader.HeadReadsBack | src/http/response_reader.cpp:39-68 | read back line by line, the block is the status line, one `key: value` line per header in order, the CORS line, the Content-Length of a non-empty body and then the Content-Type of a typed one, and the empty line |
| ResponseReader.HeadWithBody | src/http/response_reader.cpp:46-65 | the block of a message with a body is the bodiless block with Content-Length and the mapped Content-Type inserted before the empty line |
| ResponseReader.BodyLinesSplit | src/http/response_reader.cpp:46-65 | the body lines are the Content-Length line, then the Content-Type line |
| ResponseReader.Reader.constructor | src/http/response_reader.h:46-55 | the default reader holds a bodiless 500 response, the fixed fallback block, and a cursor at the start |
| ResponseReader.Reader.Built | src/http/response_reader.cpp:39-68 | the reader holds the response, its body size and the header block, with a cursor at the start |
| ResponseReader.Reader.Open | src/http/response_reader.cpp:15-37 | no reader exactly when a file body cannot be opened or sized; otherwise the size follows the file, then string, then buffer priority |
| ResponseReader.Reader.HasChunks | src/http/response_reader.cpp:83-86 | false exactly in `read_none`, where nothing is left to send |
| ResponseReader.Reader.GetChunk | src/http/response_reader.cpp:88-117 | the chunk is the unsent bytes of the current phase, exactly the next bytes of the stream; a file body is given by its offset, and `read_none` gives nothing |
| ResponseReader.Reader.Next | src/http/response_reader.cpp:119-147 | `next(k)` advances the cursor as `Advance` says and keeps the reader consistent |
| RequestReader.RequestMethodToStr | src/http/request_reader.cpp:129-142 | GET, POST and OPTIONS give "GET", "POST" and "OPTIONS"; the text is empty exactly for the undefined method |
| RequestReader.Head | src/http/request_reader.cpp:35-47 | the block starts with the request line "METHOD uri HTTP/1.1\r\n"; its lines are stated by RequestReader.HeadReadsBack |
| RequestReader.HeadReadsBack | src/http/request_reader.cpp:35-47 | read back line by line, the block is the request line, one `key: value` line per header in order, the Host line with host and port, the Content-Length of a non-empty body, and the empty line |
| RequestReader.HeaderTextSplits | src/http/request_reader.cpp:37-39 | a header with a non-empty key free of spaces and ':' and a value not starting with one is split by the server's parser back into that key and value |
| RequestReader.HeaderLinesSplitBack | src/http/request_reader.cpp:37-39 | every header line the reader writes is read back as a line and split by the server's parser into the header's key and value, in order |
| RequestReader.MethodRoundTrip | src/http/request_reader.cpp:129-142 | the server's parser reads GET and POST back as written; OPTIONS and the undefined method are rejected |
| RequestReader.ContentLengthRoundTrip | src/http/request_reader.cpp:41-42 | the Content-Length line written is read back by the parser as the same body size |
| RequestReader.MethodTokenParsed | src/http/request_reader.cpp:36 | the parser reads the written method token first |
| RequestReader.UriTokenParsed | src/http/request_reader.cpp:36 | then the written target, when it has no space |
| RequestReader.VersionTokenParsed | src/http/request_reader.cpp:36 | then "HTTP/1.1" up to the CR LF |
| RequestReader.VersionAt | src/http/request_reader.cpp:36 | "HTTP/1.1\r\n" at the version position is read as the version |
| RequestReader.RequestLineParsed | src/http/request_reader.cpp:36 | the written request line is parsed back into the same method, target and version, ending in `read_headers` |
| RequestReader.Reader.Built | src/http/request_reader.cpp:35-48 | the reader holds the request, its body size and the header block, with a cursor at the start |
| RequestReader.Reader.Open | src/http/request_reader.cpp:11-33 | no reader exactly when a file body cannot be opened or sized; otherwise the size follows the file, then string, then buffer priority |
| RequestReader.Reader.HasChunks | src/http/request_reader.cpp:62-65 | false exactly in `read_none`, where nothing is left |
| RequestReader.Reader.GetChunk | src/http/request_reader.cpp:67-96 | the chunk is the unsent bytes of the current phase, exactly the next bytes of the stream |
| RequestReader.Reader.Next | src/http/request_reader.cpp:98-126 | `next(k)` advances the cursor as `Advance` says and keeps the reader consistent |
| Api.LiveErrorToRestCode | api/api.cpp:333-346 | 200 exactly for no error, 400 exactly for invalid parameters, 404 exactly for a missing chunk or playlist, 500 exactly for an internal error |
| Api.JoinPathSnoc | api/api.cpp:279-284 | joining one more item appends "/" and the item |
| Api.JoinPathHead | api/api.cpp:279-284 | a joined path starts with its first item, followed by "/" and the rest when there are more |
| Api.JoinPathInjective | api/api.cpp:279-284 | the archive chunk path determines its items: two lists of non-empty items without '/' that join to the same path are equal |
| Api.HeadsAgree | api/api.cpp:279-284 | two items without '/' that both start a path and end at a '/' (or at its end) are the same |
| Api.PostRoutes | api/api.cpp:206-222 | a POST succeeds exactly for the two items "live" or "archive" then "files", and any other POST gives 404; the outcome does not depend on the query or on which storages exist; the route writes nothing but the chunk method, and writes it only for two items |
| Api.GetNeedsHlsPrefix | api/api.cpp:224-243 | a GET with fewer than 4 items gives 404 and one whose first item is not "hls" gives an error with code 0, both leaving the context alone; with the prefix, the stream id is recorded whatever the outcome, and a third item other than "live" or "archive" gives 404; a request without a method gives 404 |
| Api.LiveChunkRoute | api/api.cpp:245-253 | "<n>.ts" under live routes to the live chunk with sequence number n |
| Api.CutAtFirst | api/api.cpp:246 | cutting at the first '.' is determined by the part before it |
| Api.ArchivePlaylistRoute | api/api.cpp:266-277 | "index.m3u8" succeeds exactly when the start and duration query values are non-empty digits, with those values in the context; otherwise 404 |
| Api.ArchiveChunkRoute | api/api.cpp:278-286 | any other archive item routes to the archive chunk, with the path items from index 3 joined by "/" |
| Api.HeaderRouteIgnores | api/api.cpp:301-331 | a non-POST request or a header other than the four `X-HLS-*` ones is ignored; an error can only be 404 for a non-digit numeric value |
| Api.HeaderRouteSets | api/api.cpp:310-328 | X-HLS-ID sets the stream id to the value while the id is empty; each numeric header, while its field is -1, succeeds exactly when the value is a non-empty decimal numeral and then stores its value, and otherwise fails with 404, changing only that field; a field already set makes its header ignored |
| Api.HeaderSetsOnce | api/api.cpp:319-328 | once an `X-HLS-*` field is set, a second header with the same key is ignored |
| Api.HlsContext.constructor | api/hls_context.h:14-22 | a new context has no id, every number -1 and an undefined method |
| Api.FetchFromUri | api/api.cpp:195-299 | the context writes and the result are those of `UriRoute` |
| Api.FetchLive | api/api.cpp:235-258 | as `LiveRoute`: "lastread", "<digits>.ts" and "*.m3u8", and 404 without live storage |
| Api.FetchArchive | api/api.cpp:260-289 | as `ArchiveRoute` |
| Api.ChunkPath | api/api.cpp:279-284 | the loop builds the items from index `from` on, joined by "/" |
| Api.PathStep | api/api.cpp:279-284 | each loop iteration appends the item, with a "/" before it unless it is the first |
| Api.FetchFromHeader | api/api.cpp:301-331 | the context writes and the result are those of `HeaderRoute` |
| Api.HandleUri | api/api.cpp:32-49 | the request keeps a fresh context exactly when the route is not an error, and that context holds what the route wrote |
| Api.HandleHeader | api/api.cpp:51-68 | without a context the result is 500; otherwise it is the header route's result, and the context is dropped exactly on an error |
| ChunkWindow.KeepNewest | hls_live_storage/hls_live_storage.cpp:98-101 | erasing the oldest chunks keeps the newest `min(size, cap)` as a suffix |
| ChunkWindow.PushFront | hls_live_storage/hls_live_storage.cpp:67-72 | the loop puts the chunk, then dummies for the numbers up to the first, before the deque |
| ChunkWindow.PushBackRun | hls_live_storage/hls_live_storage.cpp:85-89 | the loop puts consecutive dummies after the deque |
| ChunkWindow.PrependContiguous | hls_live_storage/hls_live_storage.cpp:60-73 | prepending the chunk and its gap dummies keeps the numbers consecutive |
| ChunkWindow.AppendContiguous | hls_live_storage/hls_live_storage.cpp:81-95 | appending the gap dummies and the chunk keeps the numbers consecutive |
| ChunkWindow.ReplaceContiguous | hls_live_storage/hls_live_storage.cpp:74-78 | the slot `size - 1 + back_gap` holds the chunk's own number, so overwriting it keeps the numbers consecutive |
| ChunkWindow.KeepNewestContiguous | hls_live_storage/hls_live_storage.cpp:98-101 | trimming keeps the numbers consecutive |
| ChunkWindow.NewestFirst | hls_live_storage/hls_live_storage.cpp:160-164 | the newest chunks of a consecutive deque end at its last chunk and start `n - 1` numbers before it |
| ChunkWindow.Find | hls_live_storage/hls_live_storage.cpp:120-128 | nothing exactly when no chunk has the number; otherwise a chunk of the deque with that number |
| ChunkWindow.FindContiguous | hls_live_storage/hls_live_storage.cpp:109-129 | in a consecutive deque a number is found exactly between the first and last, at offset `number - first` |
| LiveStorage.Added | hls_live_storage/hls_live_storage.cpp:53-101 | an empty deque becomes the chunk alone; a non-empty one keeps at most `keep_size` chunks |
| LiveStorage.AddedContiguous | hls_live_storage/hls_live_storage.cpp:53-101 | every update keeps the numbers consecutive |
| LiveStorage.AddedAppends | hls_live_storage/hls_live_storage.cpp:81-101 | a number ahead by g ≤ `live_size` appends dummies for the numbers between and then the chunk, trimmed to `keep_size`, and the chunk ends the deque |
| LiveStorage.AddedJumps | hls_live_storage/hls_live_storage.cpp:90-95 | a number ahead by more than `live_size` leaves the chunk alone |
| LiveStorage.AddedIgnoresRepeat | hls_live_storage/hls_live_storage.cpp:79-80 | the last chunk's number again changes nothing |
| LiveStorage.AddedReplaces | hls_live_storage/hls_live_storage.cpp:74-78 | a number between first and last replaces exactly its own slot; every other chunk is unchanged |
| LiveStorage.AddedPrepends | hls_live_storage/hls_live_storage.cpp:60-73 | a number before the first is put in front with its gap dummies when `keep_size - size > front_gap`; otherwise nothing changes |
| LiveStorage.ChunkUrlNames | hls_live_storage/hls_live_storage.cpp:184-187 | the chunk URL ends with "<n>.ts", whose number reads back as n |
| LiveStorage.EntryLines | hls_live_storage/hls_live_storage.cpp:174-179 | each chunk adds two lines |
| LiveStorage.EntryLinesSnoc | hls_live_storage/hls_live_storage.cpp:174-179 | one more chunk adds its EXTINF line and its URL |
| LiveStorage.PlaylistLines | hls_live_storage/hls_live_storage.cpp:154-182 | the playlist is empty exactly when there are no chunks |
| LiveStorage.Entries | hls_live_storage/hls_live_storage.cpp:174-179 | n entries take 2n lines |
| LiveStorage.EntryLinesContiguous | hls_live_storage/hls_live_storage.cpp:174-179 | for consecutive chunks the entries are EXTINF/URL pairs for consecutive numbers |
| LiveStorage.PlaylistListsNewest | hls_live_storage/hls_live_storage.cpp:154-182 | the playlist lists only the newest `min(size, live_size)` chunks, and MEDIA-SEQUENCE is the first listed number |
| LiveStorage.EntriesAt | hls_live_storage/hls_live_storage.cpp:174-179 | entry k is an EXTINF line followed by the URL of number `first + k` |
| LiveStorage.Update | hls_live_storage/hls_live_storage.cpp:53-101 | the in-place update computes `Added` |
| LiveStorage.Place | hls_live_storage/hls_live_storage.cpp:55-97 | the case split on the gap computes `Placed` |
| LiveStorage.PutKept | hls_live_storage/hls_live_storage.cpp:25-107 | storing a kept playlist under an id keeps every playlist kept |
| LiveStorage.Storage.constructor | hls_live_storage/hls_live_storage.cpp:16-23 | a new store has the given sizes and host and no playlists |
| LiveStorage.Storage.AddChunk | hls_live_storage/hls_live_storage.cpp:25-107 | a chunk with number, start or duration -1 is refused and nothing changes; otherwise the id's deque becomes `Added` of the old one, its cached text is rebuilt, and the store stays consecutive, within capacity and cache-consistent |
| LiveStorage.Storage.BuildPlaylist | hls_live_storage/hls_live_storage.cpp:154-182 | the loop writes the text of the playlist lines |
| LiveStorage.Storage.GetChunk | hls_live_storage/hls_live_storage.cpp:109-129 | an unknown id gives nothing; otherwise the chunk is found exactly when its number lies between the first and last, at its offset |
| LiveStorage.Storage.GetPlaylist | hls_live_storage/hls_live_storage.cpp:131-142 | the text is the playlist of the id's current chunks, empty for an unknown id |
| App.PostAdded | application.cpp:154-202 | an empty deque becomes the chunk alone; every deque keeps 1 to 20 chunks |
| App.PostAddedContiguous | application.cpp:154-202 | every update keeps the numbers consecutive |
| App.PostAppends | application.cpp:182-196 | a number ahead by g with `max_size - size > g` appends dummies for the numbers between and then the chunk |
| App.PostClears | application.cpp:192-196 | a number ahead by g with `max_size - size <= g` leaves the chunk alone |
| App.PostIgnoresRepeat | application.cpp:180-181 | the last chunk's number again changes nothing |
| App.PostReplaces | application.cpp:175-179 | a number between first and last replaces exactly its own slot |
| App.PostPrepends | application.cpp:161-174 | a number before the first is put in front with its dummies when `max_size - size > front_gap`; otherwise nothing changes |
| App.NextChunkClearsFullDeque | application.cpp:184-196 | (as written) a deque of 19 chunks followed by the next number is cleared down to that chunk |
| App.TwentiethChunkClears | application.cpp:184-196 | (as written) chunks 1..19 followed by chunk 20 leave only chunk 20 |
| App.PostAddedIntended | application.cpp:182-202 | (corrected) the update keeps 1 to 20 chunks, and an empty deque becomes the chunk alone |
| App.IntendedKeepsHistory | application.cpp:182-202 | (corrected) a number ahead by less than 20 appends the gap and the chunk, trimmed to the newest 20; the result is consecutive and ends with the chunk |
| App.IntendedSlidesFullDeque | application.cpp:182-202 | (corrected) a full deque followed by the next number slides by one |
| App.FetchStrHeader | application.cpp:251-264 | found exactly when the header is present, with its value; otherwise the empty string |
| App.FetchIntHeader | application.cpp:266-281 | found exactly when the header is present, with `stoi` of its value; otherwise 0 |
| App.Post | application.cpp:154-203 | the in-place update computes `PostAdded` |
| App.Place | application.cpp:157-197 | the case split on the gap computes `PostPlaced` |
| App.Application.constructor | application.cpp:33-36 | a new application has no playlists |
| App.Application.PostChunk | application.cpp:135-206 | `post_chunk` always returns true, and the id's deque becomes `PostAdded` of the old one (a new id starts empty) |
| App.Application.HandlePost | application.cpp:90-133 | without any of the four `X-HLS-*` headers the answer is 400, with the body and store untouched; otherwise the chunk is stored, the answer is 200 and the body is moved out of the request |
| ArchivePlaylist.Repeat | hls_archive_storage/hls_arhive_playlist_generator.cpp:113-116 | `count` segments take 2·count lines |
| ArchivePlaylist.PairTotal | hls_archive_storage/hls_arhive_playlist_generator.cpp:88-94 | one discontinuity segment lasts its duration |
| ArchivePlaylist.RepeatTotal | hls_archive_storage/hls_arhive_playlist_generator.cpp:113-116 | `count` segments of d last count·d |
| ArchivePlaylist.RepeatPaired | hls_archive_storage/hls_arhive_playlist_generator.cpp:113-116 | each repeated segment is preceded by a discontinuity marker |
| ArchivePlaylist.GreedyLast | hls_archive_storage/hls_arhive_playlist_generator.cpp:104-117 | each dummy in list order is written `floor(left / d)` times and subtracted; the loop stops once nothing is left |
| ArchivePlaylist.GreedyPaired | hls_archive_storage/hls_arhive_playlist_generator.cpp:104-117 | every dummy segment written by the loop is preceded by a discontinuity marker |
| ArchivePlaylist.GreedyTotal | hls_archive_storage/hls_arhive_playlist_generator.cpp:104-122 | what was written plus what is left is the gap; for a non-negative gap, what is left is at least 0 and smaller than the last dummy's duration (the assertion at line 122) |
| ArchivePlaylist.GreedyStops | hls_archive_storage/hls_arhive_playlist_generator.cpp:105-107 | once nothing is left, the remaining dummies add nothing |
| ArchivePlaylist.DummyFillSpec | hls_archive_storage/hls_arhive_playlist_generator.cpp:96-133 | a gap of at most 0 gives nothing; otherwise the segments last exactly the gap (the assertion at line 132), each is preceded by a discontinuity, and the fill ends with one more discontinuity |
| ArchivePlaylist.AppendDummyChunk | hls_archive_storage/hls_arhive_playlist_generator.cpp:96-133 | the method writes `DummyFill` |
| ArchivePlaylist.DummyLoop | hls_archive_storage/hls_arhive_playlist_generator.cpp:104-117 | the nested loops compute `Greedy` |
| ArchivePlaylist.WriteCount | hls_archive_storage/hls_arhive_playlist_generator.cpp:113-116 | the inner loop writes `count` segments and subtracts `count·d` |
| ArchivePlaylist.GapFillTotal | hls_archive_storage/hls_arhive_playlist_generator.cpp:36-39 | the fill of a non-negative gap lasts exactly that gap |
| ArchivePlaylist.BodyTotal | hls_archive_storage/hls_arhive_playlist_generator.cpp:41-55 | for chunks that do not overlap, the chunks and the inner gap fills last from the first start to the last end |
| ArchivePlaylist.BodyStep | hls_archive_storage/hls_arhive_playlist_generator.cpp:41-55 | each iteration adds the fill of the gap before the chunk, then the chunk's segment |
| ArchivePlaylist.HeaderTotal | hls_archive_storage/hls_arhive_playlist_generator.cpp:70-77 | the header and ENDLIST add no time |
| ArchivePlaylist.GenerateShape | hls_archive_storage/hls_arhive_playlist_generator.cpp:15-68 | the playlist starts with the four header lines and ends with ENDLIST exactly when chunks were found |
| ArchivePlaylist.RecordedTotal | hls_archive_storage/hls_arhive_playlist_generator.cpp:33-63 | for chunks inside the window, the front gap, chunks, inner gaps and back gap last exactly the window |
| ArchivePlaylist.GenerateCovers | hls_archive_storage/hls_arhive_playlist_generator.cpp:15-68 | the playlist lasts exactly the requested duration (0 for an empty list and a duration of at most 0) |
| ArchivePlaylist.GenerateText | hls_archive_storage/hls_arhive_playlist_generator.cpp:15-68 | the method writes `Generate` |
| ArchivePlaylist.ChunkLoop | hls_archive_storage/hls_arhive_playlist_generator.cpp:41-55 | the loop writes `Body` |
| ArchivePlaylist.GapBefore | hls_archive_storage/hls_arhive_playlist_generator.cpp:43-49 | the fill of the gap before chunk i, when i > 0 |

## Left out

- Sockets, `read`/`write`/`close`, epoll, the worker threads and `worker::loop` are not modelled. `handle_in` takes the bytes one `read` returned, and `handle_out` is modelled only for the block it writes.
- Locks (`shared_mutex`, `mutex`) are not modelled. Every operation is treated as atomic.
- Allocation failure (`malloc`/`realloc`/`new` returning null) is not modelled. The `!(*buff)` test in the append helpers, which looks at the first input byte, is modelled as written.
- HttpString.Split: `split` is declared in http/string.h but not defined in http/string.cpp, so its contract is an assumption: the non-empty runs between delimiters, each a view into the same buffer. The same holds for `compare` (byte equality) and `to_str` (the bytes), also declared in http/string.h and not defined in http/string.cpp, and for Uri.FindQueryItem (the first item with the key, else an empty view), whose helper is not part of this model.
- HttpString.ToInt: the value is unbounded, so the `int64_t` overflow of a very long digit run is not modelled. Parser.Convert does model the 32-bit `int` overflow of the Content-Length loop, as a fault.
- `std::map` and `unordered_map` iteration order is not modelled. Response and request headers are given as a list in the order the map is walked.
- Undefined behaviour in the source (`size_t` underflow of a token length, the `none`-method assertion) is modelled as a `faulted` flag rather than as any particular outcome.
- LiveStorage.Storage.constructor requires `live_size > 0`. With `live_size` 0, `build_playlist` dereferences the end of the deque.
- The 64-bit arithmetic on sequence numbers, timestamps and durations is not modelled. The values are unbounded integers.
- `api::handle_request` is not modelled. Its calls do not match hls_live_storage/hls_live_storage.h: it takes an `error_type` from `add_chunk`, which that header declares as returning `bool`. Beyond those calls it only copies their results into the response.
- The braced results `{http::handle_res_type::error, 404}` and `{http::handle_res_type::error, 500}` in api/api.cpp are read as (type, code). http/request.h declares `code` first and `type` last in `handle_res`, and a scoped enumerator does not convert to `int` nor does `404` brace-initialise the `std::string desc` that follows, so against that header the braces are ill-formed: the header and api/api.cpp come from different versions of the code. The model follows the evident intent, an error with that code.
- http/worker.cpp uses fields that http/request.h does not declare: `req->buf_size` (the header and http/request.cpp have `buff_size`), and `body.body_size`, `body.write_size` and `body.size` (the header's `request_body` has only `buff`, `buff_size` and `wait_size`). The model reads `buf_size` as the request's `buff_size`, the length of its accumulation buffer (Request.BufSize), and gives the declared body size, the received count and the handed-over body fields of their own (`bodySize`, `writeSize`, `body`). The `request_body` of http/request.h, with `buff_size` and `wait_size`, is modelled separately as Request.RequestBody.
- Parser.Scan: a CR in `wait_crlf` that a byte other than LF follows only clears `got_cr` (ParserProps.ScanCrNotLf). When that byte is itself a CR, it is consumed without being noted, so "CR CR LF" does not end the token. The model keeps this as written.
- ParserProps.OneByteBodyDropped: after the loop, the rest of a read is handed on only when it is longer than one byte (http/worker.cpp:241). A one-byte body sent in the same read as the head is therefore dropped, and the request waits for a byte the client already sent. The model keeps this as written.
- `application::get_playlist` and `handle_get` are not modelled. The first moves an iterator below `begin()` and renders into a stream whose text never reaches the response.
- `std::stoi` in `fetch_int_header` is a function parameter, so its exceptions on non-numeric text are not modelled.
- ArchivePlaylist.Generate, ArchivePlaylist.DummyFill: these require a non-empty dummy list with positive durations. An empty list makes `_dummy_list.back()` undefined, and a zero duration divides by zero. With a negative duration, `count` is negative, so that dummy writes nothing; when the last dummy's duration is negative, the assertion at hls_arhive_playlist_generator.cpp:122 fails for any positive remainder.
- ArchivePlaylist.Segment lines keep durations in integer milliseconds. The `msecs/1000.0` floating-point EXTINF text and the `uri.substr(1, …)` trimming of the URI are not modelled.
- ArchivePlaylist.WriteCount: the `unsigned int` loop counter is unbounded here. A count above 2^32 is not modelled.
- The chunk-info repository query (MongoDB) is replaced by the recorded chunk list as an input.
- `hls_arhive_storage.cpp`, `chunk_info_serializer.cpp`, `settings/*`, `utility/filesystem.cpp` and the `main` files are not part of this model. They handle disk, database and configuration I/O.
- The data of a chunk is a string; the chunk's ownership of its buffer (moved out of the request, freed by the chunk) is not modelled.
- The dangling `user_data` left after `handle_header` deletes the context on an error is not modelled. The model simply drops the context.
- Api.JoinPathInjective states that the archive chunk path is determined by its items. The inverse `Split` of that path is not proved, because `split` has only an assumed contract.

## Findings

| source | as written | input that shows it | evidently intended | confidence | as-written member | corrected member |
|---|---|---|---|---|---|---|
| application.cpp:184-194 | a chunk after the last one fills the gap only when `max_size - size > back_gap`, and otherwise clears the deque | a deque of chunks 1..19 followed by chunk 20 leaves only chunk 20 | append the gap and the chunk, then trim to the newest `max_size`, as `hls_live_storage::add_chunk` does with `back_gap <= live_size` | medium, not executed | App.TwentiethChunkClears | App.IntendedKeepsHistory |
