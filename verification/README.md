# xzminidec streaming front-end, modelled in Dafny

This project models `decompress` in `userspace/xzminidec.c` of xz-embedded. It is the memory-to-memory front-end that drives the XZ decoder engine:
- it moves a source buffer through a fixed `BUFSIZ`-byte input staging buffer `in`;
- it calls `xz_dec_run` once per loop iteration;
- it drains the `BUFSIZ`-byte output staging buffer `out` into a caller-supplied sink;
- it turns the engine's `enum xz_ret` status into a return value (0 or 1) and a diagnostic.

Files:

- `bytes.dfy` (module `Bytes`): the `byte` type. It also holds `Clamp`, the number of bytes a bounded copy moves, and `Patch`, a buffer with a chunk written into it.
- `transfer.dfy` (module `Transfer`): the bounded copy primitives `read` and `write` as `Read` and `Write`. Each has a loop and a contract stating exactly what it copies.
- `engine.dfy` (module `Engine`): the decoder engine as the driver sees it.
  - `Ret` is `enum xz_ret`, plus `Other` for the `default:` label.
  - An engine is a function from a `View` (call number, unconsumed staged input, free output space) to a `Reply` (bytes consumed, bytes produced, status).
  - `Honest` is the engine contract: it consumes at most the available input and produces at most the free space.
  - `Fed` and `Produced` concatenate what a log of calls consumed and produced.
- `classify.dfy` (module `Classify`): the diagnostics with their exact texts, the three ways an iteration can end (go round again, warn and go round again, leave the loop), and the closing `switch`.
- `minidec.dfy` (module `MiniDec`): the driver.
  - A `Session` holds the `xz_buf` cursors, both staging buffers, `src_offset`, `out_offset`, the sink and the log of engine calls.
  - The invariants are `Staged`, `Consumed`, `Calls`, `Sink` and `Pending`.
  - `Saw` and `Fair` say what each engine call was shown: the next unconsumed source bytes, and an empty input only once the source is exhausted.
  - The methods follow the C function's structure: `Reload` and `Refill` (the `in_pos == in_size` branch), `Step` (one `xz_dec_run`), `Feed` (both together), `Flush` (either `write` of `out`), `Spill` (the full-buffer test), `Advance`, `Conclude` (the final write and the `switch`), `Round` and `Iterate` (one loop iteration), `Drive` (the loop) and `Decompress`.

Buffers are Dafny sequences (values). Every copy therefore returns the buffer it wrote, and the source, the sink and the staging buffers cannot alias; the C code assumes the same of its pointers. Offsets are `nat`: the driver's offsets never exceed the input and output lengths, so `size_t` wrap-around cannot arise in the modelled arithmetic.

The main results, all proved for every honest engine:

- `src_offset` never passes the input length.
- The engine consumes the source as one exact prefix, in order, with nothing skipped or repeated.
- Every engine call is shown the next unconsumed source bytes. The input buffer is refilled exactly when it is drained, so a call sees no input only once the whole source has been consumed.
- The output buffer is written out exactly when it is full. While the loop runs, the sink has received whole `BUFSIZ` buffers only and less than one buffer is pending.
- `out_offset` never passes the output length. Nothing at or after `out_offset` is ever written. The sink holds a prefix of what the engine produced.
- A call that returns without "Write error" has delivered every byte the engine produced. "Write error" happens exactly when the engine produced more bytes than the sink holds, and the sink is then exactly full.
- 0 is returned only after an `XZ_STREAM_END`. Every other status that leaves the loop is reported through the switch, with the message for that status.
- `xz_dec_end` runs exactly once on every path that returns, including the failed `xz_dec_init`: once in the `XZ_STREAM_END` case and once at the `error:` exit, which every failure reaches.

## Model

| member | source | states |
|---|---|---|
| Bytes.Clamp | userspace/xzminidec.c:28-36 | the copy count is at most the request; it is 0 when the offset is at or past the end; it never passes the end; and it falls short of the request only when it stops exactly at the end |
| Transfer.Read | userspace/xzminidec.c:25-37 | `read` returns `min(length, src_len - offset)` (0 when `offset >= src_len`) and reads nothing at or past `src_len`; the first `n` bytes of `ptr` become `src[offset..offset+n]`; every other byte of `ptr` is unchanged |
| Transfer.Write | userspace/xzminidec.c:39-51 | `write` returns `min(length, target_len - offset)` (0 when `offset >= target_len`); `target[offset..offset+n]` becomes `ptr[..n]`; every other byte of `target` is unchanged, so nothing at or past `target_len` is written |
| Classify.Code | userspace/xzminidec.c:154-189 | `decompress` returns 0 or 1, and 0 exactly on success |
| Classify.ActionOf | userspace/xzminidec.c:129-141 | `XZ_OK` always goes round again; `XZ_UNSUPPORTED_CHECK` goes round again with a warning exactly when `XZ_DEC_ANY_CHECK` is enabled; every other status leaves the loop |
| Classify.Verdict | userspace/xzminidec.c:152-182 | the switch succeeds exactly on `XZ_STREAM_END`; it reports "File is corrupt" exactly for `XZ_DATA_ERROR` and `XZ_BUF_ERROR`; it reports "Bug!" exactly for statuses it has no case for; it never reports "Write error" |
| Classify.UnsupportedCheckPath | userspace/xzminidec.c:132-141 | with `XZ_DEC_ANY_CHECK` an unsupported check warns and continues; without it the status leaves the loop and ends in the "Bug!" default |
| Classify.DiagnosticsDistinct | userspace/xzminidec.c:158-181 | distinct failure categories print distinct messages, so each message identifies its category |
| MiniDec.WarningsBound | userspace/xzminidec.c:132-141 | no "Unsupported check" warning is ever printed without `XZ_DEC_ANY_CHECK`, and never more than one per engine call |
| MiniDec.StartInv | userspace/xzminidec.c:85-94 | the initial cursors (`in_pos = in_size = out_pos = 0`, `out_size = BUFSIZ`, both offsets 0) satisfy the loop invariant |
| MiniDec.SourceRefill | userspace/xzminidec.c:98-111 | refilling a drained input buffer stages exactly the source bytes before the new `src_offset` and leaves the consumed input a prefix of the source |
| MiniDec.Reload | userspace/xzminidec.c:100-110 | a refill reads `min(BUFSIZ, input_len - src_offset)` bytes, sets `in_pos = 0` and `in_size` to that count, advances `src_offset` by the same count, changes nothing else, and keeps the invariant |
| MiniDec.Refill | userspace/xzminidec.c:98-111 | the input buffer is refilled only when `in_pos == in_size`; after a refill `in_pos == 0`, `in_size == min(BUFSIZ, input_len - src_offset)` and `src_offset` has advanced by exactly `in_size`; afterwards there is unconsumed input or the source is exhausted |
| MiniDec.Shown | userspace/xzminidec.c:98-113 | after the refill test the engine is shown the rest of the staged input, or a fresh buffer of source bytes starting at the old `src_offset` when the staged input was used up; either way it sees the next unconsumed source bytes, and nothing only when the whole source is consumed |
| MiniDec.SourceStep | userspace/xzminidec.c:113 | the bytes an engine call consumes are the source bytes immediately after those consumed before, so the consumed input stays an exact source prefix |
| MiniDec.OutputStep | userspace/xzminidec.c:113 | bytes the engine appends at `out_pos` extend the written-plus-pending output by exactly those bytes |
| MiniDec.Step | userspace/xzminidec.c:113 | an engine call sees `in[in_pos..in_size]` and `out_size - out_pos` bytes of room; `in_pos` and `out_pos` advance by what it consumed and produced; nothing else changes; the invariant is kept |
| MiniDec.Feed | userspace/xzminidec.c:98-113 | the engine is shown the rest of the staged input when some remains and otherwise exactly the next `min(BUFSIZ, input_len - src_offset)` source bytes; it never sees an empty input while unread source remains; it is offered `BUFSIZ - out_pos` bytes of room; `out_pos` grows by what it produced; the sink is untouched |
| MiniDec.OutputFlush | userspace/xzminidec.c:115-127 | a full write delivers everything produced so far and leaves nothing pending; a short write leaves the sink exactly full while the engine has produced more than it holds |
| MiniDec.Flush | userspace/xzminidec.c:115-127 | writing the pending `out_pos` bytes advances `out_offset` by the count written; a full write means everything produced is in the sink; a short write means `out_offset == output_len` and output was left undelivered |
| MiniDec.Spill | userspace/xzminidec.c:115-127 | the output buffer is written exactly when `out_pos == BUFSIZ`: below that nothing changes; at it `out_offset` advances by `min(BUFSIZ, output_len - out_offset)`, and the write is full (with `out_pos` reset to 0) exactly when it advanced by `BUFSIZ`; a short write leaves the sink exactly full |
| MiniDec.Advance | userspace/xzminidec.c:98-127 | the engine sees the next unconsumed source bytes and `BUFSIZ - out_pos` bytes of room; when its output leaves `out_pos` below `BUFSIZ` nothing is written and the step is `ok`; when it fills the buffer exactly, `out_offset` advances by `min(BUFSIZ, output_len - out_offset)`, the step is `ok` exactly when that is `BUFSIZ`, and `out_pos` restarts at 0; a step is not `ok` only after filling the buffer, and then the sink is exactly full |
| MiniDec.Conclude | userspace/xzminidec.c:143-182 | on a status that leaves the loop, the partial buffer is written before the switch; a short write gives "Write error" whatever the status; otherwise the switch's verdict stands and all produced output is in the sink; the decoder is released here exactly on success, every failure leaving that to the `error:` exit |
| MiniDec.Round | userspace/xzminidec.c:96-183 | one iteration appends exactly one engine call, shown the next unconsumed source bytes; a continuing status goes round again exactly when the step left `out_pos` below `BUFSIZ` or the full-buffer write was full, and then the sink grew by one whole buffer or not at all; "Write error" on a continuing status means that write was due and short; a stopping status goes through the switch with all output delivered, or fails with the sink exactly full; it warns only when it goes round again on an unsupported check |
| MiniDec.Iterate | userspace/xzminidec.c:96-183 | one iteration with its warning keeps the loop invariant when it goes round again: the sink at a buffer boundary, every call shown the next source bytes, every call so far continued, one warning per warning status |
| MiniDec.Drive | userspace/xzminidec.c:85-183 | the loop: every call but the last continued and every call was shown the next unconsumed source bytes; while it runs the sink holds whole buffers with less than one pending; it leaves only through the switch after a full final flush, or through "Write error" with the sink exactly full; it releases the decoder exactly when it succeeds |
| MiniDec.Decompress | userspace/xzminidec.c:54-190 | returns 0 only after `XZ_STREAM_END` with all output delivered; a failed `xz_dec_init` gives "Memory allocation failed" and writes nothing; "Write error" occurs exactly when the output exceeds `output_len`; `xz_dec_end` runs once per return, counted at the `XZ_STREAM_END` case and at the `error:` exit; every engine call is shown the next unconsumed source bytes and is starved of input only once the source is exhausted; the source is consumed in order; an unsupported check ending the run is "Bug!" (or "Write error") without `XZ_DEC_ANY_CHECK` and never ends it with it |

## Left out

- The decoder engine (`xz_dec_init`, `xz_dec_run`, `xz_dec_end`, LZMA2 and range decoding, .xz header, block and index parsing, CRC checking) lives in `xz.h` and files that are not part of this model. `xz_dec_run` is an arbitrary function of its `View` that satisfies `Honest`.
- `xz_dec_init` and its arguments (`XZ_DYNALLOC`, the 64 MiB dictionary limit `1 << 26`) become a boolean `initOk`. `xz_dec_end` becomes a release counter.
- `xz_crc32_init` / `xz_crc64_init` are left out. They fill global tables in foreign code.
- The `fputs` calls to `stderr` are left out. Each diagnostic is returned as a `Msg` value whose `Text` is the exact string; a warning is counted. The `": "` prefix written before each message is not modelled.
- Termination of `while (true)` is left out: nothing in the file bounds how often the engine answers `XZ_OK`. `Decompress` takes a `fuel` bound on loop iterations and reports `Suspended` when it is spent; a suspended run has not released the decoder yet.
- `BUFSIZ` is fixed at 8192, the glibc value. The proofs use only that it is positive, which the C standard guarantees (`BUFSIZ` is at least 256).
- The static `in` and `out` buffers keep their contents from one call to the next in C. The model starts each call with zeroed buffers; no result depends on their initial contents, because only bytes staged or produced during the call are ever read.
- `size_t` wrap-around in `i + offset` and pointer aliasing are excluded: offsets are unbounded naturals and buffers are distinct values.
- The commented-out stdin/stdout, `--help` and read-error code is left out.

## Notes on behaviour

- The final partial flush is not unconditional. A failed `xz_dec_init` jumps to the error exit before the `xz_buf` set-up and before any `write`, so the static `in` and `out` buffers are never used. A short write at the full-buffer flush also goes straight to the error exit, and the pending bytes are dropped there. The model follows the code in both cases.
- `XZ_BUF_ERROR` is fatal ("File is corrupt", like `XZ_DATA_ERROR`). No status is treated as a recoverable end of input.
- With `XZ_DEC_ANY_CHECK` undefined, `XZ_UNSUPPORTED_CHECK` reaches the `default:` branch and reports "Bug!".
- When "Write error" follows the full-buffer flush of a step whose status was `XZ_UNSUPPORTED_CHECK`, the warning for that step is never printed, because the flush comes before the status check. `Decompress`'s warning count reflects this.
