# dictionary: a Dafny model of the response printer and the response buffer

The program looks a word up in a public dictionary service: it formats a
request URL, collects the HTTP response body into a growable memory buffer
through a libcurl write callback, parses the body as JSON and prints the word,
the first part of speech and the first definition of each entry.

This project models, in `dict.c`:

- `parse_response`, as a pure function from the parse result to the printed
  lines (`Printer.ResponseLines`), and again as methods that follow the C loops
  statement by statement (`ParseResponse.PrintResponse`, `PrintEntry`,
  `PrintMeanings`), proved to print exactly the same lines. The JSON tree is the
  datatype `Json.Json` (string, array, object as a key-to-value map, and `JOther`
  for numbers, booleans and `null` inside a document). `json_tokener_parse`
  becomes an `Option<Json>`, where `None` is its NULL result. That covers a
  malformed document and also the document `null`, which json-c parses to a
  NULL pointer; so at the root, `JOther` stands only for a number or a boolean. A json-c field lookup
  (`json_object_object_get_ex`) is `Json.Get`, which yields `None` for a missing
  key and for a container that is not an object. Each element of the
  printed sequence is the text of one `printf` call, without its trailing
  newline; every count of "lines" below is a count of such messages. `printf("%s")` stops at the first NUL character,
  and json-c strings may carry one, so every printed field is passed through
  `CText.Shown`.
- `WriteMemoryCallback` and `struct MemoryStruct` (`MemoryBuffer`). The buffer
  is a byte block plus a size. The outcome of `realloc` is an input (`Alloc`).
  A sequence of writes is `MemoryBuffer.Receive`.
- The request URL built by `snprintf` into a 256-byte array (`RequestUrl`), over
  the bytes of the command-line word.
- `%d` rendering of the entry count (`Decimal`).

Files: `wrappers.dfy` (Option), `seqs.dfy` (joining per-element pieces), `json.dfy`, `c_text.dfy`, `decimal.dfy`,
`printer.dfy`, `printer_properties.dfy`, `parse_response.dfy`,
`memory_buffer.dfy`, `request_url.dfy`.

## Model

| member | source | states |
|---|---|---|
| Printer.ResponseLines | dict.c:44-143 | Every parse result, well-formed or not, prints at least one line. |
| PrinterProperties.OutcomeCases | dict.c:47-140 | The output is exactly `Error parsing JSON` if and only if parsing returned NULL. It is exactly `Root object is not an array` if and only if parsing produced a string, an object, a number or a boolean (a `null` document parses to NULL). It opens with the count line if and only if the root is an array. |
| ParseResponse.PrintResponse | dict.c:44-143 | Running the C control flow (outer loop over the root array) prints exactly the lines of `Printer.ResponseLines`, for every parse result. |
| ParseResponse.PrintEntry | dict.c:64-134 | One pass of the outer loop prints exactly the element's block `Printer.EntryLines`. |
| ParseResponse.PrintMeanings | dict.c:81-129 | The inner loop visits every meaning but prints only meaning 0's lines. An empty meanings array prints nothing. |
| PrinterProperties.CountLineReadsBack | dict.c:58-59 | The count line is `Number of definitions: ` followed by decimal digits that read back as the array length. |
| Printer.EntryLines | dict.c:64-134 | Each element prints between 1 and 3 messages, and the first is its word message. |
| Printer.EntriesLines | dict.c:62-135 | N elements print between N and 3N messages. |
| Printer.MeaningLines | dict.c:91-127 | Meaning 0 prints its part-of-speech line first, then exactly its definition step, so 1 or 2 lines. |
| PrinterProperties.PartOfSpeechCases | dict.c:92-100 | The part-of-speech line is `Part of Speech: ` plus the text if and only if `partOfSpeech` is a string. Otherwise it is `Part of speech field not found or invalid`. |
| Printer.DefinitionLines | dict.c:102-127 | The definition step prints at most one line. It prints none if and only if `definitions` is an empty array. |
| PrinterProperties.ArrayRoot | dict.c:56-62 | An array root prints the count line, then the elements' blocks. The printed count reads back as the array length. |
| PrinterProperties.EmptyArrayRoot | dict.c:58-62 | An empty root array prints exactly `Number of definitions: 0`. |
| Seqs.FlatMapAppend | dict.c:62-135 | The blocks printed for elements `a + b` are the blocks for `a` followed by the blocks for `b`. |
| PrinterProperties.BlockInEntries | dict.c:62-135 | Element i's whole block follows the blocks of elements 0 to i-1. |
| PrinterProperties.BlockInPlace | dict.c:62-135 | Element i's whole block sits in the output right after the count line and the blocks of elements 0 to i-1, so blocks appear in index order. |
| PrinterProperties.EntryHasOneWordLine | dict.c:66-77 | Each element's block holds exactly one word message (valid or diagnostic), and no other message of the block is one. |
| PrinterProperties.EntriesWordLines | dict.c:62-77 | The blocks of N elements hold exactly N word messages. |
| PrinterProperties.ResponseWordLines | dict.c:58-77 | For an array root of N elements, the printed messages hold exactly N word messages. |
| PrinterProperties.WordLineCases | dict.c:66-77 | The word line is `Word: ` plus the text if and only if `word` is a string. Otherwise it is `Word field not found or invalid`. |
| PrinterProperties.MeaningsInvalid | dict.c:79-134 | When `meanings` is missing or not an array, the block is exactly the word line then `Meanings field not found or invalid`. It has no part-of-speech or definition line. |
| PrinterProperties.MeaningsEmpty | dict.c:81-84 | An empty `meanings` array adds nothing after the word line. |
| PrinterProperties.FirstMeaningReported | dict.c:84-127 | With a non-empty `meanings` array, the block is the word line followed by meaning 0's lines. |
| PrinterProperties.LaterMeaningsSilent | dict.c:84-91 | Two elements that agree on `word` and on meaning 0 print the same block, whatever their later meanings. |
| PrinterProperties.DefinitionCases | dict.c:102-127 | `definitions` missing or not an array: the diagnostic line. Empty array: no line. Non-empty array: one line, `Definition: ` plus the text when element 0's `definition` is a string, else the diagnostic. |
| PrinterProperties.LaterDefinitionsSilent | dict.c:104-111 | Only definition 0 matters: arrays that agree on element 0 print the same. |
| PrinterProperties.WellFormedEntry | dict.c:64-127 | An element of the service's usual shape prints exactly its word, part-of-speech and definition lines. |
| PrinterProperties.SampleResponse | dict.c:44-143 | A one-entry response of the service's usual shape (`test`, `noun`, `a trial`) prints exactly four messages: the count, then `Word: test`, `Part of Speech: noun` and `Definition: a trial`. |
| PrinterProperties.ObjectRoot | dict.c:137-140 | An object root prints only `Root object is not an array`. |
| CText.UpToNul | dict.c:71-72 | What C reads of a sequence is its longest prefix without a NUL. It is all of the sequence when there is no NUL. |
| CText.TerminatedView | dict.c:39 | A terminator placed after NUL-free bytes makes C read back exactly those bytes. |
| Decimal.Show | dict.c:59 | `%d` of a count is a non-empty run of decimal digits with no leading zero. |
| Decimal.ValueOfShow | dict.c:59 | Reading the printed digits back gives the count. |
| Decimal.ShowInjective | dict.c:59 | Distinct counts print differently. |
| MemoryBuffer.WriteMemory | dict.c:23-42 | On refused allocation: returns 0, buffer unchanged. On success: size grows by `size*nmemb`, the old bytes are kept, the chunk follows them, a 0 terminator sits at the new size, and `size*nmemb` is returned. |
| MemoryBuffer.WriteAppends | dict.c:36-38 | After a successful write, the body is the old body followed by the chunk. |
| MemoryBuffer.SplitWrites | dict.c:25-41 | Two writes in a row leave the same buffer as one write of both chunks, so chunking does not matter. |
| MemoryBuffer.Receive | dict.c:23-42 | After any number of successful writes, the body is the old body plus all chunks in arrival order. After at least one write it is terminated. |
| MemoryBuffer.TextIsData | dict.c:39 | A terminated buffer whose body has no NUL hands exactly its body to the parser. |
| MemoryBuffer.InitialAsWrittenUnterminated | dict.c:155-156 | As written, the initial buffer is not terminated for any non-zero indeterminate byte, and it stays so when no write happens. |
| MemoryBuffer.InitialAsWrittenAfterWrites | dict.c:155-156 | As written, one write or more terminates the buffer and leaves exactly the chunks in it, whatever the indeterminate byte. |
| MemoryBuffer.Initial | dict.c:155-156 | The corrected initial buffer is terminated, with an empty body and empty text. |
| MemoryBuffer.ReceivedBody | dict.c:23-42 | From the corrected start, any number of writes, zero included, leaves a terminated buffer holding exactly the joined chunks. A NUL-free body reaches the parser whole. |
| RequestUrl.Url | dict.c:158-159 | Counted in bytes, as `snprintf` counts: the URL holds at most 255 bytes. It is a prefix of the base URL bytes plus the word's bytes up to any NUL. It is cut only when the whole does not fit. |
| RequestUrl.ShortWordVerbatim | dict.c:158-159 | A word whose bytes fit follows the base URL verbatim, with no encoding, and can be read back. |
| RequestUrl.LongWordTruncated | dict.c:158-159 | A word whose bytes do not fit is cut so that the URL is exactly 255 bytes. The cut may fall inside a multibyte character. |

## Left out

- `json_tokener_parse` (dict.c:47) is not modelled. Its result is the input `Option<Json>`. Inside a document, `JOther` stands for numbers, booleans and JSON `null`: json-c represents a `null` member or element as a NULL pointer, and the printer's field checks treat it exactly like a number. A whole document that is `null` parses to NULL, so it is `None` and prints `Error parsing JSON`.
- Output goes to the returned sequence rather than through `printf`. Each element is one `printf` call, and its trailing newline is dropped. json-c turns a `\n` escape in a JSON string into a real newline, so one message can span several stdout lines. Every count in the model (messages per element, word messages per response) counts `printf` calls, not stdout lines.
- JSON string texts are Dafny strings, i.e. sequences of Unicode scalar values, while json-c hands `printf` byte strings. The printer copies these texts without measuring them, so the only loss is a string whose bytes are not valid UTF-8, which the model cannot represent. The stderr messages (dict.c:32, dict.c:170) are not modelled.
- libcurl setup, transfer and cleanup in `get_definition` (dict.c:161-179) are network I/O through a foreign library. The write callback's chunks are inputs. What libcurl does when the callback returns fewer bytes than it was given is not modelled.
- `main` (dict.c:186-196): the argument-count check and the usage line are not modelled.
- Memory ownership is not modelled: `free`, `json_object_put`, and the identity of the pointer `realloc` returns (dict.c:142, dict.c:155, dict.c:177). Only the values are modelled.
- `int` overflow of array lengths and `size_t` overflow of `size * nmemb` are not modelled. Counts are unbounded naturals.
- MemoryBuffer.WriteMemory: the bytes `realloc` adds are indeterminate in C but zero in the model. All of them are overwritten before the result is observed, so no contract depends on their value.

## Findings

| source | as written | input that shows it | evidently intended | confidence | as-written member | corrected member |
|---|---|---|---|---|---|---|
| dict.c:155-156 | The response buffer starts as `malloc(1)` with size 0. Its one byte is never set, so the buffer has no terminator until the first write callback. | A response with an empty body (for example `Content-Length: 0`). libcurl then makes no write call, and `parse_response(chunk.memory)` reads an indeterminate byte and possibly past the one-byte block. | The buffer holds a terminator at `size` from the start, for example `chunk.memory[0] = 0`. | medium; not executed (depends on libcurl making no write call for an empty body) | MemoryBuffer.InitialAsWrittenUnterminated | MemoryBuffer.ReceivedBody |
