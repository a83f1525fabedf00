# Batch line reader and identifier buffers

A Dafny model of three pieces of a database client and server.

- **The batch-mode line reader** of `client/readline.cc`. A `LINE_BUFFER` holds a growable buffer of `bufread + 1` bytes, a growth ceiling `max_size` and three cursors: `start_of_line`, `end_of_line` and `end`. `batch_readline` hands out one line at a time from a file. A buffer seeded with `batch_readline_command` hands out one line at a time from the fragments accumulated so far.
  - `fill_buffer` moves the unconsumed tail to the front and grows the buffer. It doubles the capacity only when no whole `IO_SIZE` unit fits after the tail, at most once per fill and never beyond `max_size`. It then reads whole multiples of `IO_SIZE`. At end of input it adds a synthetic newline after a non-empty final fragment that lacks one. When the ceiling cuts a line, the part up to the cut is handed out truncated before end of input, and the bytes after the cut begin the next line. The final fragment then gets its synthetic newline as usual, unless the cut fell exactly at the end of the file and no byte remains to carry one.
  - `intern_read_line` scans for the next newline and refills when it reaches `end`. When the ceiling stops growth it breaks the line at `end` and sets `truncated`.
  - `batch_readline` removes one trailing newline and, outside binary mode, one carriage return before it. It writes a NUL after the line.
- **`CharBuffer<buff_sz>`** of `sql/char_buffer.h`. It is a fixed array of `buff_sz + 1` bytes holding up to `buff_sz` bytes and a NUL after them. It is filled by a bounded binary copy or by a charset's lower-casing routine.
- **`Lex_ident_fs` and `Casedn_ident_buffer`** of `sql/lex_ident.h`. `Lex_ident_fs` is a file-system identifier, with its quick database-name check. `Casedn_ident_buffer` is a `CharBuffer` that always folds through one identifier charset.

The model takes the same form as the code:
- The line buffer and the character buffer are classes whose methods update their fields.
- The cursors are offsets into the buffer.
- The open file is a `Source` object holding the bytes it has not handed out yet.
- The pure parts are functions and lemmas in `LineSpec`, `CharBuffers` and `LexIdent`.

The line reader is specified against `Stream()`: every byte the buffer will still deliver, counting the synthetic newline. `Raw()` is the same bytes without the synthetic newline, the file as it really is. Each `intern_read_line` is said to *deliver* a span, and the predicate `LineSpec.Delivers` defines exactly what that means. The span comes off the front of the stream. It is one whole line ending in its newline, unless the line was truncated. When it was truncated, the span is the newline-free bytes buffered so far. What is left of the stream is exactly what follows the span, with one exception. When the cut falls exactly at the end of the file, the synthetic newline that followed the span is dropped as well, and nothing is left.

Two points where the code's behaviour differs from what a reader of the comments might expect. The model follows the code:
- When the ceiling is hit, `pos--` at `client/readline.cc:253` is undone by `end_of_line = pos + 1` at line 258. The truncated line is therefore *everything* buffered from `start_of_line` to `end`, and no byte is dropped. The next call continues at `end` (`LineSpec.TruncatedSpan`).
- Once the input has ended, the reported length `pos + 1 - eof - start_of_line` already leaves out the line's newline. `batch_readline` then finds no newline to remove, so a carriage return before it stays, even outside binary mode (`LineSpec.EofLineKeepsCarriageReturn`). This holds for every line of a string-seeded buffer, and for the final fragment of a file when it has no newline of its own, which the synthetic newline ends. A last line with its own newline is read before end of input and is stripped as usual. The carriage-return policy therefore applies exactly to lines read before end of input (`LineSpec.StreamLineStripped`). `Readline.ReadFirstLine` shows this end to end: "abc\r\n" reads back as "abc" in text mode, while a file "abc\r" reads back as "abc\r" (`LineSpec.FirstLineExamples`).

## Model

| member | source | states |
|---|---|---|
| LineSpec.KludgeSplit | client/readline.cc:207-216 | the end-of-input newline is added after the last undelivered byte: splitting off a delivered prefix that is one whole line, or that is followed by more bytes, leaves the synthetic newline to the rest |
| LineSpec.FillConserves | client/readline.cc:197-219 | one refill loses no byte and invents none except the kludge's newline: the stream from the tail is unchanged, whether the read returned bytes or hit end of input |
| LineSpec.NewlineIndex | client/readline.cc:233-235 | the scan's stopping point: within bounds, no newline before it, and a newline at it unless it is the end |
| LineSpec.DeliversFirstLine | client/readline.cc:230-262 | a span delivered without truncation is exactly the stream's first line, newline included, and the remaining stream is what follows it |
| LineSpec.EmitDelivers | client/readline.cc:253-259 | handing out the buffered bytes up to a newline, or up to `end` at the ceiling, is a delivery from the stream those bytes begin |
| LineSpec.TruncatedSpan | client/readline.cc:244-258 | a truncated line has no newline, is a prefix of the stream, and the next line starts right after it, so no byte is dropped |
| LineSpec.ReportedLength | client/readline.cc:259 | the reported length counts the newline before end of input and leaves it out once the input has ended |
| LineSpec.StripLine | client/readline.cc:65-71 | a line without a trailing newline is kept whole; otherwise exactly one '\n' is removed, and outside binary mode one '\r' before it, never more |
| LineSpec.EofLineKeepsCarriageReturn | client/readline.cc:259 | a line reported after end of input comes back without its newline and with any '\r' kept, in both modes |
| LineSpec.StreamLineStripped | client/readline.cc:65-71 | a line reported before end of input loses its newline, and outside binary mode a '\r' before it |
| LineSpec.CrLfPolicy | client/readline.cc:65-71 | "abc\r\n" strips to "abc" in text mode and to "abc\r" in binary mode |
| LineSpec.WithKludge | client/readline.cc:207-216 | the stream of a buffer's bytes before end of input gains one synthetic newline exactly when they are non-empty and do not end in one, so it then ends in a newline |
| LineSpec.SeedContent | client/readline.cc:129-143 | a seed onto empty contents is the string and a newline; onto earlier contents it keeps them, turns their final byte into a space and appends the string and a newline |
| LineSpec.Delivers | client/readline.cc:230-262 | a delivered span is a non-empty prefix of the stream, with no newline before its last byte, truncated exactly when it does not end in a newline, and the stream after it is strictly shorter |
| LineSpec.EofIffSyntheticNewline | client/readline.cc:207-259 | given how a read splits the raw bytes, end of input was reached exactly when the span without its last byte is all the raw bytes there were |
| LineSpec.FileFirstLine | client/readline.cc:58-75 | the first line of a file's bytes, the reference definition for one batch_readline over a fresh buffer |
| LineSpec.FirstLineOfRaw | client/readline.cc:224-262 | an untruncated span read from raw bytes is, stripped, the file's first line; end of input was not reached exactly when the file has a newline, and then the span is the file up to and including it |
| LineSpec.FirstLineExamples | client/readline.cc:65-71 | the first line of "abc\r\n" is "abc" in text mode and "abc\r" in binary mode; of "abc\r" it is "abc\r" in both; "abc" and "abc\n" give "abc" |
| LineSpec.SeedAllJoins | client/readline.cc:122-145 | seeding fragments one after another onto an empty buffer gives the fragments joined by single spaces and followed by one newline |
| LineSpec.JoinSpacesSingleLine | client/readline.cc:127-145 | fragments without newlines join into one line without a newline |
| LineSpec.SeededCommandLine | client/readline.cc:127-145 | reading a buffer seeded with newline-free fragments delivers one line holding the whole joined command with nothing after it, and batch_readline returns the joined command |
| Readline.Source.Read | client/readline.cc:198-203 | a read either fails with a non-zero errno and consumes nothing, or hands out the next bytes of the file (at most the requested count), returning nothing only at end of file |
| Readline.LineBuffer.Zeroed | client/readline.cc:45-47 | a zero-filled LINE_BUFFER: no file, an empty buffer, all cursors, counts and flags zero |
| Readline.LineBuffer.Reallocate | client/readline.cc:179-181 | the reallocation either fails with an errno and leaves the buffer alone, or gives the requested size with the old contents kept |
| Readline.LineBuffer.InitLineBuffer | client/readline.cc:108-120 | the file, capacity and ceiling are recorded; the allocation may fail, and otherwise the buffer is valid, empty and terminated, its stream is the whole file with the end-of-input kludge and its raw bytes are the file |
| Readline.LineBuffer.BatchReadlineInit | client/readline.cc:33-55 | no buffer for a rejected file kind or when an allocation fails; otherwise a fresh valid buffer of IO_SIZE over the file, not at end of input, not truncated, without error, delivering the whole file |
| Readline.LineBuffer.InitLineBufferFromString | client/readline.cc:127-145 | for a C string without an inner NUL, on success the contents are the old contents with their final byte turned into a space, then the string and a newline; the cursors are rewound, end of input is set, max_size is 1, and the stream is exactly those contents |
| Readline.LineBuffer.Seed | client/readline.cc:135-143 | the writes into the reallocated buffer yield exactly that seeded content, followed by the NUL sentinel |
| Readline.LineBuffer.BatchReadlineCommand | client/readline.cc:88-101 | a result, when there is one, is the given buffer, or a fresh one when none is given, seeded with the string onto its earlier contents and at end of input; its file, `truncated` and `read_length` are the given buffer's, or null, false and 0 for a fresh one |
| Readline.LineBuffer.Grow | client/readline.cc:164-188 | the growth loop returns room for a positive whole number of IO_SIZE units after the tail, with the tail's bytes kept; it doubles the capacity only within max_size, stops at the ceiling with nothing changed, or records the reallocation error |
| Readline.LineBuffer.FillBuffer | client/readline.cc:154-221 | `fill_buffer` with its outcomes told apart: at end of input it does nothing; at the ceiling it changes nothing and leaves eof unset; on an error it records it; otherwise the tail is at offset 0, the new bytes follow it and the stream is unchanged; unless it failed the capacity is kept or doubled within max_size; end of input is newly set only when the file had no bytes left |
| Readline.LineBuffer.ReadIn | client/readline.cc:197-220 | reading after the tail consumes exactly the bytes placed in the buffer, adds the synthetic newline only at end of input after a tail without one, keeps the stream, and reaches end of input only when the file had no bytes left |
| Readline.LineBuffer.Deposit | client/readline.cc:207-219 | the new bytes follow the tail; the cursors are reset around them and the NUL sentinel follows |
| Readline.LineBuffer.ShiftDown | client/readline.cc:190-195 | the unconsumed bytes move to offset 0 and `end` follows them |
| Readline.LineBuffer.Scan | client/readline.cc:233-235 | the scan stops at the first newline from its start, or at `end` when there is none |
| Readline.LineBuffer.EmittedDelivers | client/readline.cc:253-259 | moving `end_of_line` past the line's last byte completes a delivery from the stream and keeps the buffer valid |
| Readline.LineBuffer.Refill | client/readline.cc:236-252 | a refill either keeps the scan going with fewer bytes left to read, means the stream was empty at end of input, hits the ceiling with a newline-free buffered line, or fails with an error; unless it failed the capacity is kept or doubled within max_size; before end of input the raw bytes from the line's start are unchanged, and when the refill meets end of input they are the buffered line plus the synthetic newline, with no newline of their own; a successful fill leaves `end` within the capacity |
| Readline.LineBuffer.FindLineEnd | client/readline.cc:231-255 | the loop stops at the line's newline, at `end - 1` when the ceiling forces a break, at end of input only after the stream was empty, or on an error; when it finds a line the capacity has only grown within max_size, the raw bytes are unchanged before end of input, and the newline it stops at is the synthetic one, the last byte, when end of input was met during the scan; a stream buffer that finds a line holds no more than its capacity, even once end of input is met; a clean end of input keeps `error` |
| Readline.LineBuffer.InternReadLine | client/readline.cc:224-262 | a returned line is a delivery from the stream at the call, its length is the reported length, and `truncated` is set exactly when the ceiling stopped growth; then the error is unchanged, the capacity has only grown within max_size, and the file's raw bytes are the span and then the rest, or, when this call met end of input, the span is all of them plus the synthetic newline; no line is returned only after an error or at end of input with nothing left, and always when the stream was empty, with `truncated` unchanged; for a stream buffer the span ends within the capacity; a clean end of input keeps `error` |
| Readline.LineBuffer.ReadLine | client/readline.cc:231-261 | the same for the loop and its exit, given `start_of_line` already set |
| Readline.LineBuffer.Emit | client/readline.cc:253-260 | setting `truncated` and `end_of_line` and computing the length delivers the found line, with the reported length, and splits the raw bytes into the span and the rest, or into the span less its synthetic newline; `end_of_line` moves to just past the found end |
| Readline.LineBuffer.BatchReadline | client/readline.cc:58-75 | the returned line is the delivered span, cut to its reported length and stripped, and sits in the buffer with its length in read_length and a NUL after it; end of input is reached by this call exactly when the span's newline is the synthetic one, that is when the span without its last byte is all the file had left; the error is unchanged and the capacity has only grown within max_size; no line is returned only after an error or when nothing is left, and then read_length and `truncated` are unchanged; for a stream buffer the span fits the capacity; a clean end of input keeps `error` |
| Readline.LineBuffer.Terminate | client/readline.cc:65-73 | stripping and terminating keep the buffer valid, leave the stream and the raw bytes unchanged, and leave the stripped line NUL-terminated in place |
| Readline.LineBuffer.PutNul | client/readline.cc:72-73 | the NUL after the line lands inside the span just handed out or on the sentinel, so the bytes still to deliver, with or without the synthetic newline, are untouched |
| Readline.LineBuffer.StrippedLength | client/readline.cc:65-71 | the kept length is the length of the stripped line, and it differs from the full length exactly when the line ends in a newline |
| Readline.LineBuffer.RefilledRaw | client/readline.cc:207-219 | after a refill the raw bytes from the line's start are the buffered line and the unread rest, or at end of input those plus the synthetic newline |
| Readline.LineBuffer.EmittedRaw | client/readline.cc:253-259 | once a span is handed out, the raw bytes are the span and then the rest, or the span is the raw bytes plus the synthetic newline with nothing left |
| Readline.LineBuffer.FirstNewlineIsLast | client/readline.cc:233-235 | in bytes that are newline-free except for a final newline, the first newline found is the last byte |
| Readline.FirstLineDelivered | client/readline.cc:230-262 | the first span read under a ceiling the file cannot reach is not truncated, and stripped it is the file's first line |
| Readline.OverlongLineDelivered | client/readline.cc:164-176 | the first span read from a newline-free file at least as long as IO_SIZE and as max_size is truncated and comes back whole, a non-empty prefix of the file |
| Readline.ReadOverlongLine | client/readline.cc:224-258 | batch_readline_init then one batch_readline over a newline-free file that neither IO_SIZE nor max_size can hold returns, when it returns a line, a non-empty prefix of the file no longer than the capacity allowed, with `truncated` set |
| Readline.ReadFirstLine | client/readline.cc:33-75 | batch_readline_init then one batch_readline over a file, under a ceiling the file cannot reach, returns the file's first line (FileFirstLine) when it returns one, and nothing for an empty file |
| CharBuffers.BinCopy | sql/char_buffer.h:35-36 | the binary copy's content is a prefix of the input and at most buff_sz long; it is the whole input when that fits, and exactly buff_sz bytes when cut |
| CharBuffers.BinCopyIdempotent | sql/char_buffer.h:35-36 | copying a copied value again changes nothing |
| CharBuffers.CString | sql/char_buffer.h:61 | the C string at a pointer: a NUL-free prefix, followed by a NUL when it is shorter than the bytes |
| CharBuffers.CStringStopsAtNul | sql/char_buffer.h:37 | NUL-free bytes followed by a NUL read back as exactly those bytes, whatever follows |
| CharBuffers.CharBuffer.constructor | sql/char_buffer.h:27-31 | an empty buffer of buff_sz + 1 bytes whose first byte is NUL |
| CharBuffers.CharBuffer.ToLexCString | sql/char_buffer.h:53-60 | the LEX_CSTRING covers the stored bytes with m_length, never more than buff_sz |
| CharBuffers.CharBuffer.Length | sql/char_buffer.h:62 | length() never exceeds buff_sz |
| CharBuffers.CharBuffer.Str | sql/char_buffer.h:61 | str() is the stored bytes followed by their NUL |
| CharBuffers.CharBuffer.StrReadsBack | sql/char_buffer.h:61 | NUL-free stored bytes read back through str() as a C string unchanged |
| CharBuffers.CharBuffer.CopyBin | sql/char_buffer.h:32-39 | after copy_bin the buffer holds the binary copy of the input, NUL-terminated; bytes after the NUL are unchanged |
| CharBuffers.CharBuffer.CopyCasedn | sql/char_buffer.h:40-46 | after copy_casedn the buffer holds the charset's folding of the input into buff_sz bytes, NUL-terminated |
| CharBuffers.CharBuffer.CopyCasednIf | sql/char_buffer.h:47-52 | the folding copy when `casedn` is set, the binary copy otherwise |
| LexIdent.LexIdentFs.CheckDbNameQuick | sql/lex_ident.h:40-43 | a name accepted by the quick check is 1..NAME_LEN bytes and does not end in a space |
| LexIdent.DefaultIdentFs | sql/lex_ident.h:27-29 | the default identifier is empty |
| LexIdent.IdentFsOf | sql/lex_ident.h:30-32 | the identifier covers exactly `length` bytes from `str` |
| LexIdent.QuickCheckAccepts | sql/lex_ident.h:40-43 | the quick check rejects a name exactly when it is not 1..NAME_LEN bytes or ends in a space (both directions) |
| LexIdent.QuickCheckRejects | sql/lex_ident.h:42 | each of the three rejection causes alone rejects the name |
| LexIdent.DefaultRejected | sql/lex_ident.h:27-43 | the default identifier fails the quick check |
| LexIdent.QuickCheckLastByte | sql/lex_ident.h:42 | the verdict depends only on the length and the last byte |
| LexIdent.QuickCheckOfBuffer | sql/lex_ident.h:40-43 | the contents of a buffer of at most NAME_LEN bytes are rejected exactly when empty or ending in a space |
| LexIdent.CasednIdentBuffer.IdentFs | sql/lex_ident.h:79-83 | the identifier check_db_name examines is the buffer's content, at most buff_sz bytes |
| LexIdent.CasednIdentBuffer.constructor | sql/lex_ident.h:56-58 | a fresh empty buffer using the identifier charset |
| LexIdent.CasednIdentBuffer.Folded | sql/lex_ident.h:59-63 | a fresh buffer holding the identifier charset's folding of the input |
| LexIdent.CasednIdentBuffer.FoldedIf | sql/lex_ident.h:64-68 | a fresh buffer holding the folding when `casedn` is set, the binary copy otherwise |
| LexIdent.CasednIdentBuffer.CopyCasedn | sql/lex_ident.h:69-73 | the content becomes the identifier charset's folding of the input |
| LexIdent.CasednIdentBuffer.CopyCasednIf | sql/lex_ident.h:74-78 | the content becomes the folding when `casedn` is set, the binary copy otherwise |

## Left out

- batch_readline_end: releasing the buffer and the LINE_BUFFER has no counterpart in a garbage-collected model.
- batch_readline_init's fstat test for directories and block devices (and its absence on Windows) is the `rejectedKind` parameter; the file system is not modelled.
- my_malloc and my_realloc with MY_FAE abort the process on failure; the model treats each allocation, init_line_buffer's my_malloc included, as one that may fail, chosen nondeterministically, and then takes the code's failure branch.
- my_read is nondeterministic: how many bytes one call returns, and whether it fails, is not determined by the model.
- The file is modelled as the bytes it has not handed out yet (`Source.rest`); descriptors, `fileno`, MY_WME error messages and my_errno values beyond "non-zero" are not modelled.
- Integer widths: the `uint` casts of buffer lengths, `ulong` sizes and `(size_t) -1` are modelled as unbounded naturals and a tagged result, so lengths of 4 GiB or more are not modelled.
- The buffer is a sequence field that the methods reassign, not a `char*` array updated in place; the pointer batch_readline returns is described by `startOfLine` and `readLength`, and its invalidation by later calls (aliasing) is not captured.
- FillBuffer, InternReadLine, BatchReadline: after a failed read or reallocation the model promises only that the error is recorded and no line is returned, not the state the buffer is left in.
- InitLineBuffer: start_of_line is left as the zero-filled LINE_BUFFER had it (0), since intern_read_line sets it before use.
- Growth monotonicity: the bound on the number of growth events is not stated; each Grow doubles at most once per iteration and only within max_size, and that per-call fact is what is proved.
- Readline.ReadFirstLine: its ceiling leaves room for the whole file, so it covers reading without truncation; a line cut at the ceiling is covered by BatchReadline, LineSpec.TruncatedSpan and Readline.ReadOverlongLine.
- InitLineBufferFromString, BatchReadlineCommand: `str` is the C string, the bytes before its NUL that strlen at client/readline.cc:130 counts, so it holds no NUL; memory beyond that NUL is never read by the code and is not modelled.
- DBUG_ENTER, DBUG_RETURN, DBUG_PRINT tracing is left out.
- The charset's casedn routine is an abstract function whose result never exceeds the destination size; real case-folding tables are not modelled.
- Casedn_ident_buffer's fixed charset my_charset_utf8mb3_general_ci is a constructor parameter; the charset library is not part of this model.
- Lex_ident_fs::check_body, check_db_name and check_db_name_with_error, and the Casedn_ident_buffer members that call them, are declared but their bodies are not part of this model; only the identifier they examine (`IdentFs`) is modelled.
- NameLen: NAME_LEN is defined outside these files; it is taken as 64 characters of 3 bytes each (192).
- CharBuffers.CharBuffer.CopyBin: the debug assertion `str.length < sizeof(m_buff)` is not a precondition; the release-build behaviour, truncation by MY_MIN, is modelled instead.
- CharBuffers.CharBuffer.CopyCasedn: the debug assertion that the folded length fits the buffer holds by the type of casedn.
- Casedn_ident_buffer's inheritance from CharBuffer is modelled by composition (`base`).
- The explicit `Lex_ident_fs(const LEX_CSTRING &)` constructor is the datatype constructor `LexIdentFs` itself.
