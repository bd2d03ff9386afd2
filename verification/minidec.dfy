/** The streaming driver `decompress` of userspace/xzminidec.c: one input and
    one output staging buffer of `BUFSIZ` bytes, the `xz_buf` cursors over
    them, and the refill / step / flush loop with its status handling. */
module MiniDec {
  import opened Bytes
  import opened Transfer
  import opened Engine
  import opened Classify

  /** `BUFSIZ` of the C library, the size of the static `in` and `out`
      buffers. 8192 is the glibc value; the proofs use only that it is
      positive, which the C standard guarantees (it is at least 256). */
  const BUFSIZ: nat := 8192

  /** The cursor fields of `struct xz_buf`. */
  datatype XzBuf = XzBuf(inPos: nat, inSize: nat, outPos: nat, outSize: nat)

  /** The arguments of `decompress` and the two things fixed when the
      program is built or started: the decoder engine and whether
      `XZ_DEC_ANY_CHECK` is defined. `output` is the sink before the call. */
  datatype Env = Env(
    input: seq<byte>, inputLen: nat,
    output: seq<byte>, outputLen: nat,
    engine: Engine, anyCheck: bool)

  /** The driver's state: the cursors, the contents of the staging buffers,
      the running offsets into the source and the sink, the sink itself, and
      the calls made to the engine so far. */
  datatype Session = Session(
    b: XzBuf,
    inBuf: seq<byte>, outBuf: seq<byte>,
    srcOffset: nat, outOffset: nat,
    output: seq<byte>,
    log: seq<Exchange>)

  /** The staging buffers have `BUFSIZ` bytes and `in_pos <= in_size`. */
  ghost predicate Shape(s: Session)
  {
    && |s.inBuf| == BUFSIZ && |s.outBuf| == BUFSIZ && s.b.outSize == BUFSIZ
    && s.b.inPos <= s.b.inSize <= BUFSIZ && s.b.outPos <= BUFSIZ
  }

  /** The staged input is the `in_size` source bytes just before
      `src_offset`, and `src_offset` never passes the input length. */
  ghost predicate Staged(env: Env, b: XzBuf, inBuf: seq<byte>, srcOffset: nat)
  {
    && b.inPos <= b.inSize <= |inBuf|
    && b.inSize <= srcOffset <= env.inputLen <= |env.input|
    && inBuf[..b.inSize] == env.input[srcOffset - b.inSize..srcOffset]
  }

  /** The input consumed by the engine is exactly a prefix of the source, in
      order, with nothing skipped: everything before the unconsumed part of
      the staging buffer. */
  ghost predicate Consumed(env: Env, b: XzBuf, srcOffset: nat, log: seq<Exchange>)
  {
    && b.inSize <= srcOffset
    && srcOffset - b.inSize + b.inPos <= |env.input|
    && Fed(log) == env.input[..srcOffset - b.inSize + b.inPos]
  }

  /** Every engine call is logged with its call number and what the engine
      answered to it. */
  ghost predicate Calls(env: Env, log: seq<Exchange>)
  {
    && Logged(log, env.engine)
    && (forall i :: 0 <= i < |log| ==> log[i].view.step == i)
  }

  /** The sink side: the sink keeps its length, `out_offset` never passes
      the output length, nothing at or after `out_offset` has been written,
      and what was written is a prefix of what the engine produced. */
  ghost predicate Sink(env: Env, output: seq<byte>, outOffset: nat, log: seq<Exchange>)
  {
    && env.outputLen <= |env.output|
    && |output| == |env.output| && outOffset <= env.outputLen
    && output[outOffset..] == env.output[outOffset..]
    && output[..outOffset] <= Produced(log)
  }

  /** No output is lost: the bytes written to the sink followed by the
      pending bytes of the output buffer are exactly what the engine has
      produced. */
  ghost predicate Pending(output: seq<byte>, outOffset: nat, outBuf: seq<byte>, outPos: nat, log: seq<Exchange>)
  {
    outOffset <= |output| && outPos <= |outBuf|
    && output[..outOffset] + outBuf[..outPos] == Produced(log)
  }

  /** Facts that hold of every state, including the one a failed write
      leaves behind. */
  ghost predicate Closed(env: Env, s: Session)
  {
    && Honest(env.engine)
    && Shape(s)
    && Staged(env, s.b, s.inBuf, s.srcOffset)
    && Consumed(env, s.b, s.srcOffset, s.log)
    && Calls(env, s.log)
    && Sink(env, s.output, s.outOffset, s.log)
  }

  /** The loop invariant. */
  ghost predicate Inv(env: Env, s: Session)
  {
    Closed(env, s) && Pending(s.output, s.outOffset, s.outBuf, s.b.outPos, s.log)
  }

  /** What one engine call was shown, given the input `fed` consumed before
      it: the next unconsumed source bytes, and nothing at all only once
      the whole source has been consumed. */
  ghost predicate Saw(env: Env, fed: seq<byte>, avail: seq<byte>)
  {
    && |fed| <= env.inputLen <= |env.input|
    && fed == env.input[..|fed|]
    && avail <= env.input[|fed|..env.inputLen]
    && (avail == [] ==> |fed| == env.inputLen)
  }

  /** Every logged call was shown the source bytes right after those
      consumed by the calls before it, and was starved of input only when
      the source was exhausted. */
  ghost predicate Fair(env: Env, log: seq<Exchange>)
  {
    forall i :: 0 <= i < |log| ==> Saw(env, Fed(log[..i]), log[i].view.avail)
  }

  /** A call shown the next source bytes keeps the log fair. */
  lemma FairAppend(env: Env, log: seq<Exchange>, x: Exchange)
    requires Fair(env, log) && Saw(env, Fed(log), x.view.avail)
    ensures Fair(env, log + [x])
  {
    forall i | 0 <= i < |log| + 1
      ensures Saw(env, Fed((log + [x])[..i]), (log + [x])[i].view.avail)
    {
      if i < |log| {
        assert (log + [x])[..i] == log[..i];
      } else {
        assert (log + [x])[..i] == log;
      }
    }
  }

  /** Number of warnings printed for the logged statuses. */
  function Warnings(log: seq<Exchange>, anyCheck: bool): (n: nat)
  {
    if log == [] then 0
    else Warnings(log[..|log| - 1], anyCheck) + (if ActionOf(Last(log).reply.ret, anyCheck) == Warn then 1 else 0)
  }

  /** One more logged call adds one warning exactly when its status warns. */
  lemma WarningsAppend(log: seq<Exchange>, x: Exchange, anyCheck: bool)
    ensures Warnings(log + [x], anyCheck)
            == Warnings(log, anyCheck) + (if ActionOf(x.reply.ret, anyCheck) == Warn then 1 else 0)
  {
    assert (log + [x])[..|log|] == log;
  }

  /** Without `XZ_DEC_ANY_CHECK` no warning is ever printed; with it, one
      per `XZ_UNSUPPORTED_CHECK` status, so never more than the calls made. */
  lemma {:induction false} WarningsBound(log: seq<Exchange>, anyCheck: bool)
    ensures Warnings(log, anyCheck) <= |log|
    ensures !anyCheck ==> Warnings(log, anyCheck) == 0
  {
    if log != [] {
      WarningsBound(log[..|log| - 1], anyCheck);
    }
  }

  /** The state just before the loop. */
  function Start(output: seq<byte>): (s: Session)
  {
    Session(XzBuf(0, 0, 0, BUFSIZ), seq(BUFSIZ, _ => 0), seq(BUFSIZ, _ => 0), 0, 0, output, [])
  }

  /** A refill of a drained buffer stages the next source bytes; the
      consumed input is unaffected. */
  lemma SourceRefill(env: Env, b: XzBuf, inBuf: seq<byte>, srcOffset: nat, log: seq<Exchange>,
                     n: nat, buf: seq<byte>)
    requires Staged(env, b, inBuf, srcOffset) && Consumed(env, b, srcOffset, log)
    requires b.inPos == b.inSize
    requires n == Clamp(srcOffset, |inBuf|, env.inputLen)
    requires n == 0 ==> buf == inBuf
    requires n > 0 ==> srcOffset + n <= env.inputLen && buf == Patch(inBuf, 0, env.input[srcOffset..srcOffset + n])
    ensures Staged(env, b.(inPos := 0, inSize := n), buf, srcOffset + n)
    ensures Consumed(env, b.(inPos := 0, inSize := n), srcOffset + n, log)
  {
    if n > 0 {
      PatchShape(inBuf, 0, env.input[srcOffset..srcOffset + n]);
    }
  }

  /** Replacing only the input side of a state by one that is staged and
      consumed correctly keeps the invariant. */
  lemma Restage(env: Env, s: Session, b: XzBuf, inBuf: seq<byte>, srcOffset: nat)
    requires Inv(env, s)
    requires Staged(env, b, inBuf, srcOffset) && Consumed(env, b, srcOffset, s.log)
    requires |inBuf| == BUFSIZ && b.inSize <= BUFSIZ
    requires b.outPos == s.b.outPos && b.outSize == s.b.outSize
    ensures Inv(env, s.(b := b, inBuf := inBuf, srcOffset := srcOffset))
  {
  }

  /** The state after a refill of a drained buffer keeps the invariant. */
  lemma Refilled(env: Env, s: Session, n: nat, buf: seq<byte>)
    requires Inv(env, s) && s.b.inPos == s.b.inSize
    requires n == Clamp(s.srcOffset, BUFSIZ, env.inputLen)
    requires n == 0 ==> buf == s.inBuf
    requires n > 0 ==> s.srcOffset + n <= env.inputLen && buf == Patch(s.inBuf, 0, env.input[s.srcOffset..s.srcOffset + n])
    ensures Inv(env, s.(b := s.b.(inPos := 0, inSize := n), inBuf := buf, srcOffset := s.srcOffset + n))
  {
    var b := s.b.(inPos := 0, inSize := n);
    assert |buf| == BUFSIZ by {
      if n > 0 {
        PatchShape(s.inBuf, 0, env.input[s.srcOffset..s.srcOffset + n]);
      }
    }
    assert Staged(env, b, buf, s.srcOffset + n) && Consumed(env, b, s.srcOffset + n, s.log) by {
      SourceRefill(env, s.b, s.inBuf, s.srcOffset, s.log, n, buf);
    }
    Restage(env, s, b, buf, s.srcOffset + n);
  }

  /** The unconsumed staged input is the source from the first byte not yet
      consumed up to `src_offset`. */
  lemma Unconsumed(env: Env, b: XzBuf, inBuf: seq<byte>, srcOffset: nat, log: seq<Exchange>)
    requires Staged(env, b, inBuf, srcOffset) && Consumed(env, b, srcOffset, log)
    ensures |Fed(log)| == srcOffset - b.inSize + b.inPos
    ensures inBuf[b.inPos..b.inSize] == env.input[|Fed(log)|..srcOffset]
  {
    SliceShift(inBuf, env.input, b.inSize, srcOffset - b.inSize, b.inPos, b.inSize);
  }

  /** What the engine is shown after the refill test: the rest of the
      staged input, or a fresh buffer of source bytes when the staged input
      was used up; either way the next unconsumed source bytes. */
  lemma Shown(env: Env, s: Session, s1: Session)
    requires Inv(env, s) && Inv(env, s1) && s1.log == s.log
    requires s.b.inPos != s.b.inSize ==> s1 == s
    requires s.b.inPos == s.b.inSize ==>
               && s1.b.inPos == 0
               && s1.b.inSize == Clamp(s.srcOffset, BUFSIZ, env.inputLen)
               && s1.srcOffset == s.srcOffset + s1.b.inSize
    requires s1.b.inPos < s1.b.inSize || s1.srcOffset == env.inputLen
    ensures s1.inBuf[s1.b.inPos..s1.b.inSize] ==
              if s.b.inPos == s.b.inSize
              then env.input[s.srcOffset..s.srcOffset + Clamp(s.srcOffset, BUFSIZ, env.inputLen)]
              else s.inBuf[s.b.inPos..s.b.inSize]
    ensures Saw(env, Fed(s.log), s1.inBuf[s1.b.inPos..s1.b.inSize])
  {
    Unconsumed(env, s1.b, s1.inBuf, s1.srcOffset, s1.log);
    Unconsumed(env, s.b, s.inBuf, s.srcOffset, s.log);
    ghost var fed := Fed(s.log);
    assert env.input[|fed|..s1.srcOffset] <= env.input[|fed|..env.inputLen];
  }

  /** The body of the `in_pos == in_size` branch: `read` the next
      `min(BUFSIZ, input_len - src_offset)` source bytes into `in`, advance
      `src_offset` by that many and restart `in_pos` at 0. */
  method Reload(env: Env, s: Session) returns (s': Session)
    requires Inv(env, s) && s.b.inPos == s.b.inSize
    ensures Inv(env, s')
    ensures s'.b == s.b.(inPos := 0, inSize := Clamp(s.srcOffset, BUFSIZ, env.inputLen))
    ensures s'.srcOffset == s.srcOffset + s'.b.inSize
    ensures s' == s.(b := s'.b, inBuf := s'.inBuf, srcOffset := s'.srcOffset)
  {
    var n, buf := Read(s.inBuf, s.srcOffset, BUFSIZ, env.input, env.inputLen);
    Refilled(env, s, n, buf);
    s' := s.(b := s.b.(inPos := 0, inSize := n), inBuf := buf, srcOffset := s.srcOffset + n);
  }

  /** The `in_pos == in_size` test: the input buffer is refilled only once
      it is fully drained; a refill restarts `in_pos` at 0, stages the next
      `min(BUFSIZ, input_len - src_offset)` source bytes and advances
      `src_offset` by exactly that many, so afterwards there is unconsumed
      input unless the source is exhausted. */
  method Refill(env: Env, s: Session) returns (s': Session)
    requires Inv(env, s)
    ensures Inv(env, s')
    ensures s.b.inPos != s.b.inSize ==> s' == s
    ensures s.b.inPos == s.b.inSize ==>
              && s'.b.inPos == 0
              && s'.b.inSize == Clamp(s.srcOffset, BUFSIZ, env.inputLen)
              && s'.srcOffset == s.srcOffset + s'.b.inSize
    ensures s'.b.inPos < s'.b.inSize || s'.srcOffset == env.inputLen
    ensures s' == s.(b := s'.b, inBuf := s'.inBuf, srcOffset := s'.srcOffset)
    ensures s'.b.outPos == s.b.outPos && s'.b.outSize == s.b.outSize
  {
    if s.b.inPos == s.b.inSize {
      s' := Reload(env, s);
    } else {
      s' := s;
    }
  }

  /** A logged engine call that saw the unconsumed staged input keeps the
      source side: what it consumed are the source bytes right after those
      consumed before. */
  lemma SourceStep(env: Env, b: XzBuf, inBuf: seq<byte>, srcOffset: nat, log: seq<Exchange>, x: Exchange)
    requires Staged(env, b, inBuf, srcOffset) && Consumed(env, b, srcOffset, log)
    requires x.view.avail == inBuf[b.inPos..b.inSize]
    requires Fits(x.view, x.reply)
    ensures Staged(env, b.(inPos := b.inPos + x.reply.consumed), inBuf, srcOffset)
    ensures Consumed(env, b.(inPos := b.inPos + x.reply.consumed), srcOffset, log + [x])
  {
    var c := x.reply.consumed;
    var base := srcOffset - b.inSize + b.inPos;
    assert Taken(x) == env.input[base..base + c] by {
      assert Taken(x) == inBuf[b.inPos..b.inPos + c];
      SliceShift(inBuf, env.input, b.inSize, srcOffset - b.inSize, b.inPos, b.inPos + c);
    }
    Append(log, x);
    PrefixJoin(env.input, base, base + c);
  }

  /** Logging the engine's answer to a view that carries the next call
      number keeps the log faithful. */
  lemma CallsStep(env: Env, log: seq<Exchange>, x: Exchange)
    requires Calls(env, log)
    requires x.view.step == |log|
    requires x.reply == env.engine(x.view)
    ensures Calls(env, log + [x])
  {
  }

  /** A logged engine call that appended its bytes at `out_pos` keeps the
      sink side and the pending-output equation. */
  lemma OutputStep(env: Env, output: seq<byte>, outOffset: nat, outBuf: seq<byte>, outPos: nat,
                   log: seq<Exchange>, x: Exchange)
    requires Sink(env, output, outOffset, log)
    requires Pending(output, outOffset, outBuf, outPos, log)
    requires outPos + |x.reply.produced| <= |outBuf|
    ensures Sink(env, output, outOffset, log + [x])
    ensures Pending(output, outOffset, Patch(outBuf, outPos, x.reply.produced),
                    outPos + |x.reply.produced|, log + [x])
  {
    var p := x.reply.produced;
    Append(log, x);
    PatchShape(outBuf, outPos, p);
    assert Patch(outBuf, outPos, p)[..outPos + |p|] == outBuf[..outPos] + p;
    assert output[..outOffset] + (outBuf[..outPos] + p) == (output[..outOffset] + outBuf[..outPos]) + p;
  }

  /** One `xz_dec_run` call. The engine sees the unconsumed staged
      input and the free output space; the cursors advance by what it
      consumed and produced, and the call is logged. */
  method Step(env: Env, s: Session) returns (s': Session, ret: Ret)
    requires Inv(env, s)
    ensures Inv(env, s')
    ensures |s'.log| > 0 && s'.log == s.log + [Last(s'.log)]
    ensures Last(s'.log).view.avail == s.inBuf[s.b.inPos..s.b.inSize]
    ensures Last(s'.log).view.room == s.b.outSize - s.b.outPos
    ensures ret == Last(s'.log).reply.ret
    ensures s'.b.inPos == s.b.inPos + Last(s'.log).reply.consumed
    ensures s'.b.outPos == s.b.outPos + |Last(s'.log).reply.produced|
    ensures s' == s.(b := s'.b, outBuf := s'.outBuf, log := s'.log)
    ensures s'.b.inSize == s.b.inSize && s'.b.outSize == s.b.outSize
  {
    var v := View(|s.log|, s.inBuf[s.b.inPos..s.b.inSize], s.b.outSize - s.b.outPos);
    var r := env.engine(v);
    var x := Exchange(v, r);
    assert Fits(v, r);
    SourceStep(env, s.b, s.inBuf, s.srcOffset, s.log, x);
    CallsStep(env, s.log, x);
    OutputStep(env, s.output, s.outOffset, s.outBuf, s.b.outPos, s.log, x);
    PatchShape(s.outBuf, s.b.outPos, r.produced);
    s' := s.(b := s.b.(inPos := s.b.inPos + r.consumed, outPos := s.b.outPos + |r.produced|),
             outBuf := Patch(s.outBuf, s.b.outPos, r.produced),
             log := s.log + [x]);
    ret := r.ret;
  }

  /** Writing `w` pending bytes at `out_offset` keeps the sink side; the sink
      now holds everything produced when the write was full, and is full
      when it was short. */
  lemma OutputFlush(env: Env, output: seq<byte>, outOffset: nat, outBuf: seq<byte>, outPos: nat,
                    log: seq<Exchange>, w: nat, output': seq<byte>)
    requires Sink(env, output, outOffset, log)
    requires Pending(output, outOffset, outBuf, outPos, log)
    requires w == Clamp(outOffset, outPos, env.outputLen)
    requires w == 0 ==> output' == output
    requires w > 0 ==> outOffset + w <= env.outputLen && output' == Patch(output, outOffset, outBuf[..w])
    ensures Sink(env, output', outOffset + w, log)
    ensures w == outPos ==> output'[..outOffset + w] == Produced(log)
    ensures w == outPos ==> Pending(output', outOffset + w, outBuf, 0, log)
    ensures w != outPos ==> outOffset + w == env.outputLen < |Produced(log)|
  {
    if w > 0 {
      PatchShape(output, outOffset, outBuf[..w]);
      assert output'[outOffset + w..] == output[outOffset + w..];
    }
    assert output'[..outOffset + w] == output[..outOffset] + outBuf[..w];
    assert outBuf[..outPos] == outBuf[..w] + outBuf[w..outPos];
    assert output'[..outOffset + w] + outBuf[..0] == output'[..outOffset + w];
  }

  /** Either `write` of the output buffer: write the pending bytes to the sink
      at `out_offset` and advance `out_offset` by the count written. A full
      write delivers everything produced so far; a short one means the sink
      is full and the engine produced more than it holds. */
  method Flush(env: Env, s: Session) returns (s': Session, written: nat)
    requires Inv(env, s)
    ensures written == Clamp(s.outOffset, s.b.outPos, env.outputLen)
    ensures s'.outOffset == s.outOffset + written
    ensures s' == s.(output := s'.output, outOffset := s'.outOffset)
    ensures Closed(env, s')
    ensures written == s.b.outPos ==> s'.output[..s'.outOffset] == Produced(s.log)
    ensures written == s.b.outPos ==> Inv(env, s'.(b := s'.b.(outPos := 0)))
    ensures written != s.b.outPos ==> s'.outOffset == env.outputLen < |Produced(s.log)|
  {
    var w, out := Write(s.outBuf, s.outOffset, s.b.outPos, s.output, env.outputLen);
    OutputFlush(env, s.output, s.outOffset, s.outBuf, s.b.outPos, s.log, w, out);
    s' := s.(output := out, outOffset := s.outOffset + w);
    written := w;
  }

  /** The body of the loop up to the engine call: refill the input buffer
      if it is drained, then one engine step. */
  method Feed(env: Env, s: Session) returns (s': Session, ret: Ret)
    requires Inv(env, s)
    ensures Inv(env, s')
    ensures |s'.log| > 0 && s'.log == s.log + [Last(s'.log)]
    ensures ret == Last(s'.log).reply.ret
    // the engine is shown the rest of the staged input, or a fresh buffer
    // of source bytes when the staged input is used up
    ensures Last(s'.log).view.avail ==
              if s.b.inPos == s.b.inSize
              then env.input[s.srcOffset..s.srcOffset + Clamp(s.srcOffset, BUFSIZ, env.inputLen)]
              else s.inBuf[s.b.inPos..s.b.inSize]
    ensures Saw(env, Fed(s.log), Last(s'.log).view.avail)
    ensures Last(s'.log).view.room == BUFSIZ - s.b.outPos
    ensures s'.b.outPos == s.b.outPos + |Last(s'.log).reply.produced|
    ensures s'.outOffset == s.outOffset && s'.output == s.output
  {
    var s1 := Refill(env, s);
    Shown(env, s, s1);
    s', ret := Step(env, s1);
  }

  /** The `b.out_pos == sizeof(out)` test: the output buffer is written out
      exactly when it is full. `ok` is false when that write was short,
      which ends the call with "Write error". */
  method Spill(env: Env, s: Session) returns (s': Session, ok: bool)
    requires Inv(env, s) && s.b.outPos <= BUFSIZ
    ensures Closed(env, s')
    ensures s'.log == s.log
    ensures s.b.outPos < BUFSIZ ==> ok && s' == s
    ensures s.b.outPos == BUFSIZ ==>
              && s'.outOffset == s.outOffset + Clamp(s.outOffset, BUFSIZ, env.outputLen)
              && (ok <==> s'.outOffset == s.outOffset + BUFSIZ)
    ensures ok ==> Inv(env, s') && s'.b.outPos < BUFSIZ
    ensures ok && s.b.outPos == BUFSIZ ==> s'.b.outPos == 0
    ensures !ok ==> s.b.outPos == BUFSIZ && s'.outOffset == env.outputLen < |Produced(s'.log)|
  {
    s', ok := s, true;
    if s.b.outPos == s.b.outSize {
      var written;
      s', written := Flush(env, s);
      if written != s.b.outPos {
        ok := false;
      } else {
        s' := s'.(b := s'.b.(outPos := 0));
      }
    }
  }

  /** The body of the loop up to the status test: refill, one engine step,
      and a write of the output buffer exactly when the step filled it. */
  method Advance(env: Env, s: Session) returns (s': Session, ret: Ret, ok: bool)
    requires Inv(env, s) && s.b.outPos < BUFSIZ
    ensures Closed(env, s')
    ensures |s'.log| > 0 && s'.log == s.log + [Last(s'.log)]
    ensures ret == Last(s'.log).reply.ret
    ensures Saw(env, Fed(s.log), Last(s'.log).view.avail)
    ensures Last(s'.log).view.room == BUFSIZ - s.b.outPos
    ensures s.b.outPos + |Last(s'.log).reply.produced| < BUFSIZ ==>
              && ok && s'.b.outPos == s.b.outPos + |Last(s'.log).reply.produced|
              && s'.outOffset == s.outOffset && s'.output == s.output
    ensures s.b.outPos + |Last(s'.log).reply.produced| == BUFSIZ ==>
              && s'.outOffset == s.outOffset + Clamp(s.outOffset, BUFSIZ, env.outputLen)
              && (ok <==> s'.outOffset == s.outOffset + BUFSIZ)
    ensures ok ==> Inv(env, s') && s'.b.outPos < BUFSIZ
    ensures ok && s.b.outPos + |Last(s'.log).reply.produced| == BUFSIZ ==> s'.b.outPos == 0
    ensures !ok ==> s.b.outPos + |Last(s'.log).reply.produced| == BUFSIZ
    ensures !ok ==> s'.outOffset == env.outputLen < |Produced(s'.log)|
  {
    var s1;
    s1, ret := Feed(env, s);
    s', ok := Spill(env, s1);
  }

  /** A status that leaves the loop: the partial output buffer is written
      first; a short write is "Write error" whatever the status, otherwise
      the closing `switch` decides. Only its `XZ_STREAM_END` case releases
      the decoder here (`released`); every failure leaves that to the
      `error:` exit. */
  method Conclude(env: Env, s: Session, ret: Ret) returns (s': Session, exit: Exit, released: nat)
    requires Inv(env, s)
    ensures Closed(env, s')
    ensures s' == s.(output := s'.output, outOffset := s'.outOffset)
    ensures !exit.Suspended?
    ensures exit == Failed(WriteError) ==> s'.outOffset == env.outputLen < |Produced(s'.log)|
    ensures exit != Failed(WriteError) ==> exit == Verdict(ret) && s'.output[..s'.outOffset] == Produced(s'.log)
    ensures released == (if exit == Succeeded then 1 else 0)
  {
    var written;
    s', written := Flush(env, s);
    released := 0;
    if written != s.b.outPos {
      exit := Failed(WriteError);
    } else {
      exit := Verdict(ret);
      if ret == StreamEnd {
        released := 1;
      }
    }
  }

  /** Whether the loop goes round again after an iteration, and if not, how
      `decompress` ends. */
  datatype Next = Again | Done(exit: Exit)

  /** One iteration of the `while (true)` loop. `XZ_OK`, and
      `XZ_UNSUPPORTED_CHECK` under `XZ_DEC_ANY_CHECK` (after one warning,
      `warned`), go round again; a short write of either flush ends the call
      with "Write error", whatever the status was. */
  method Round(env: Env, s: Session) returns (s': Session, next: Next, warned: bool, released: nat)
    requires Inv(env, s) && s.b.outPos < BUFSIZ
    ensures Closed(env, s')
    ensures |s'.log| > 0 && s'.log == s.log + [Last(s'.log)]
    ensures Saw(env, Fed(s.log), Last(s'.log).view.avail)
    ensures next == Again ==> Inv(env, s') && s'.b.outPos < BUFSIZ
    ensures next == Again ==> ActionOf(Last(s'.log).reply.ret, env.anyCheck) != Stop
    // a continuing status goes round again unless the full-buffer write
    // was due and short
    ensures ActionOf(Last(s'.log).reply.ret, env.anyCheck) != Stop ==>
              (next == Again <==>
                 s.b.outPos + |Last(s'.log).reply.produced| < BUFSIZ
                 || Clamp(s.outOffset, BUFSIZ, env.outputLen) == BUFSIZ)
    ensures next == Done(Failed(WriteError)) && ActionOf(Last(s'.log).reply.ret, env.anyCheck) != Stop ==>
              s.b.outPos + |Last(s'.log).reply.produced| == BUFSIZ
    // going round again, the sink grows by one whole buffer or not at all
    ensures next == Again ==>
              if s.b.outPos + |Last(s'.log).reply.produced| == BUFSIZ
              then s'.outOffset == s.outOffset + BUFSIZ && s'.b.outPos == 0
              else s'.outOffset == s.outOffset && s'.b.outPos == s.b.outPos + |Last(s'.log).reply.produced|
    ensures next.Done? && next.exit != Failed(WriteError) ==>
              && ActionOf(Last(s'.log).reply.ret, env.anyCheck) == Stop
              && next.exit == Verdict(Last(s'.log).reply.ret)
              && s'.output[..s'.outOffset] == Produced(s'.log)
    ensures next == Done(Failed(WriteError)) ==> s'.outOffset == env.outputLen < |Produced(s'.log)|
    ensures next != Again ==> !next.exit.Suspended?
    // the warning is printed only when the loop goes round again
    ensures warned <==> next == Again && ActionOf(Last(s'.log).reply.ret, env.anyCheck) == Warn
    ensures released == (if next == Done(Succeeded) then 1 else 0)
  {
    var ret, ok;
    s', ret, ok := Advance(env, s);
    warned := false;
    released := 0;
    if !ok {
      next := Done(Failed(WriteError));
    } else {
      match ActionOf(ret, env.anyCheck) {
        case Continue =>
          next := Again;
        case Warn =>
          next := Again;
          warned := true;
        case Stop =>
          var exit;
          s', exit, released := Conclude(env, s', ret);
          next := Done(exit);
      }
    }
  }

  /** The set-up of `b` before the loop: the cursors start at zero with
      `out_size == BUFSIZ`, and the invariant holds before the first
      iteration. */
  lemma StartInv(env: Env)
    requires Honest(env.engine) && env.inputLen <= |env.input| && env.outputLen <= |env.output|
    ensures Inv(env, Start(env.output)) && Start(env.output).b.outPos < BUFSIZ
    ensures Fair(env, Start(env.output).log)
  {
    var s := Start(env.output);
    assert s.output[..0] + s.outBuf[..0] == [];
  }

  /** Writing out one whole buffer keeps the sink at a buffer boundary. */
  lemma WholeBuffers(before: nat, after: nat)
    requires before % BUFSIZ == 0
    requires after == before || after == before + BUFSIZ
    ensures after % BUFSIZ == 0
  {
  }

  /** What holds each time the loop is about to go round: the invariant, an
      output buffer with room, a sink at a buffer boundary, a fair log of
      calls that all continued, and one warning per warning status. */
  ghost predicate Looping(env: Env, s: Session, warnings: nat)
  {
    && Inv(env, s)
    && s.b.outPos < BUFSIZ
    && s.outOffset % BUFSIZ == 0
    && Fair(env, s.log)
    && (forall i :: 0 <= i < |s.log| ==> ActionOf(s.log[i].reply.ret, env.anyCheck) != Stop)
    && warnings == Warnings(s.log, env.anyCheck)
  }

  /** One iteration together with its warning: going round again keeps
      `Looping`; leaving the loop reports how the call ends. */
  method Iterate(env: Env, s: Session, warnings: nat)
    returns (s': Session, next: Next, warnings': nat, released: nat)
    requires Looping(env, s, warnings)
    ensures Closed(env, s') && Fair(env, s'.log)
    ensures |s'.log| > 0 && s'.log == s.log + [Last(s'.log)]
    ensures forall i :: 0 <= i < |s'.log| - 1 ==> ActionOf(s'.log[i].reply.ret, env.anyCheck) != Stop
    ensures next == Again ==> Looping(env, s', warnings')
    ensures next != Again ==> !next.exit.Suspended?
    ensures next.Done? && next.exit != Failed(WriteError) ==>
              && ActionOf(Last(s'.log).reply.ret, env.anyCheck) == Stop
              && next.exit == Verdict(Last(s'.log).reply.ret)
              && s'.output[..s'.outOffset] == Produced(s'.log)
              && warnings' == Warnings(s'.log, env.anyCheck)
    ensures next == Done(Failed(WriteError)) ==>
              && s'.outOffset == env.outputLen < |Produced(s'.log)|
              && warnings' == Warnings(s.log, env.anyCheck)
    ensures released == (if next == Done(Succeeded) then 1 else 0)
  {
    var warned;
    s', next, warned, released := Round(env, s);
    WarningsAppend(s.log, Last(s'.log), env.anyCheck);
    FairAppend(env, s.log, Last(s'.log));
    warnings' := if warned then warnings + 1 else warnings;
    forall i | 0 <= i < |s'.log| - 1
      ensures ActionOf(s'.log[i].reply.ret, env.anyCheck) != Stop
    {
      assert s'.log[i] == s.log[i];
    }
    if next == Again {
      WholeBuffers(s.outOffset, s'.outOffset);
    }
  }

  /** The `while (true)` loop, run for at most `fuel` iterations. `released`
      counts the `xz_dec_end` calls made inside it. */
  method Drive(env: Env, fuel: nat) returns (exit: Exit, s: Session, warnings: nat, released: nat)
    requires Honest(env.engine) && env.inputLen <= |env.input| && env.outputLen <= |env.output|
    ensures Closed(env, s)
    ensures Fair(env, s.log)
    ensures exit.Suspended? ==> |s.log| == fuel
    ensures forall i :: 0 <= i < |s.log| - 1 ==> ActionOf(s.log[i].reply.ret, env.anyCheck) != Stop
    ensures exit.Suspended? ==> forall i :: 0 <= i < |s.log| ==> ActionOf(s.log[i].reply.ret, env.anyCheck) != Stop
    // while looping, the sink has received whole buffers only, and less
    // than one buffer of output is pending
    ensures exit.Suspended? ==>
              s.outOffset % BUFSIZ == 0 && s.outOffset <= |Produced(s.log)| < s.outOffset + BUFSIZ
    ensures !exit.Suspended? ==> |s.log| > 0
    ensures !exit.Suspended? && exit != Failed(WriteError) ==>
              && ActionOf(Last(s.log).reply.ret, env.anyCheck) == Stop
              && exit == Verdict(Last(s.log).reply.ret)
              && s.output[..s.outOffset] == Produced(s.log)
    ensures exit == Failed(WriteError) ==> s.outOffset == env.outputLen < |Produced(s.log)|
    ensures exit != Failed(WriteError) ==> warnings == Warnings(s.log, env.anyCheck)
    ensures exit == Failed(WriteError) ==> warnings == Warnings(s.log[..|s.log| - 1], env.anyCheck)
    ensures released == (if exit == Succeeded then 1 else 0)
  {
    s := Start(env.output);
    StartInv(env);
    warnings := 0;
    var k: nat := 0;
    while k < fuel
      invariant k <= fuel
      invariant Looping(env, s, warnings)
      invariant |s.log| == k
    {
      ghost var before := s.log;
      var next, r;
      s, next, warnings, r := Iterate(env, s, warnings);
      if next.Done? {
        assert s.log[..|s.log| - 1] == before;
        return next.exit, s, warnings, r;
      }
      k := k + 1;
    }
    return Suspended, s, warnings, 0;
  }

  /** `decompress`, running at most `fuel` loop iterations (the C loop has
      no bound of its own). `initOk` is whether `xz_dec_init` succeeded;
      `warnings` counts the "Unsupported check" diagnostics and `ends` the
      `xz_dec_end` calls. */
  method Decompress(input: seq<byte>, inputLen: nat, output: seq<byte>, outputLen: nat,
                    engine: Engine, initOk: bool, anyCheck: bool, fuel: nat)
    returns (exit: Exit, s: Session, warnings: nat, ends: nat)
    requires inputLen <= |input| && outputLen <= |output| && Honest(engine)
    ensures Closed(Env(input, inputLen, output, outputLen, engine, anyCheck), s)
    ensures Fair(Env(input, inputLen, output, outputLen, engine, anyCheck), s.log)
    // xz_dec_end runs exactly once on every path that returns
    ensures ends == (if exit.Suspended? then 0 else 1)
    ensures !initOk ==> exit == Failed(AllocFailed) && s.log == [] && s.output == output
    ensures exit.Suspended? ==> initOk && |s.log| == fuel
    // every step but the last one continued the loop
    ensures forall i :: 0 <= i < |s.log| - 1 ==> ActionOf(s.log[i].reply.ret, anyCheck) != Stop
    ensures exit.Suspended? ==> forall i :: 0 <= i < |s.log| ==> ActionOf(s.log[i].reply.ret, anyCheck) != Stop
    ensures exit.Suspended? ==>
              s.outOffset % BUFSIZ == 0 && s.outOffset <= |Produced(s.log)| < s.outOffset + BUFSIZ
    // 0 only through XZ_STREAM_END
    ensures exit == Succeeded ==> |s.log| > 0 && Last(s.log).reply.ret == StreamEnd
    // any other status that left the loop is reported through the switch
    ensures initOk && exit.Failed? && exit.msg != WriteError ==>
              |s.log| > 0 && ActionOf(Last(s.log).reply.ret, anyCheck) == Stop
              && exit == Verdict(Last(s.log).reply.ret)
    // an unsupported check as the last status: "Bug!" without
    // XZ_DEC_ANY_CHECK, never an exit of its own with it
    ensures !anyCheck && initOk && !exit.Suspended? && |s.log| > 0 && Last(s.log).reply.ret == UnsupportedCheck ==>
              exit == Failed(Bug) || exit == Failed(WriteError)
    ensures anyCheck && |s.log| > 0 && Last(s.log).reply.ret == UnsupportedCheck ==>
              exit.Suspended? || exit == Failed(WriteError)
    // unless the sink was too small, all produced output reached the sink
    ensures !exit.Suspended? && exit != Failed(WriteError) ==> s.output[..s.outOffset] == Produced(s.log)
    ensures !exit.Suspended? ==> (exit == Failed(WriteError) <==> |Produced(s.log)| > outputLen)
    ensures exit == Failed(WriteError) ==> s.outOffset == outputLen
    // a write error at the full-buffer flush comes before the warning
    ensures exit != Failed(WriteError) ==> warnings == Warnings(s.log, anyCheck)
    ensures exit == Failed(WriteError) ==> |s.log| > 0 && warnings == Warnings(s.log[..|s.log| - 1], anyCheck)
  {
    var env := Env(input, inputLen, output, outputLen, engine, anyCheck);
    if !initOk {
      exit := Failed(AllocFailed);
      s := Start(output);
      StartInv(env);
      warnings, ends := 0, 0;
    } else {
      exit, s, warnings, ends := Drive(env, fuel);
    }
    // the `error:` exit
    if exit.Failed? {
      ends := ends + 1;
    }
  }
}
