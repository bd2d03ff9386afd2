/** The decoder engine as the driver sees it. `xz_dec_run` is not part of this
    model: an engine is any function from what one call can see (`View`) to
    what it does (`Reply`), and `Honest` is the contract the driver relies on. */
module Engine {
  import opened Bytes

  /** `enum xz_ret`, plus `Other` for any value outside the known set
      (the `default:` label of the driver's switch). */
  datatype Ret =
    | Ok
    | StreamEnd
    | UnsupportedCheck
    | MemError
    | MemlimitError
    | FormatError
    | OptionsError
    | DataError
    | BufError
    | Other

  /** What one `xz_dec_run` call sees: its call number, the unconsumed
      staged input `in[in_pos..in_size]`, and the free output space
      `out_size - out_pos`. The call number stands for the engine's internal
      state: replying by call number can replay any run of a deterministic
      decoder. */
  datatype View = View(step: nat, avail: seq<byte>, room: nat)

  /** What one call does: consumes a prefix of the available input, appends
      bytes to the output buffer, and returns a status. */
  datatype Reply = Reply(consumed: nat, produced: seq<byte>, ret: Ret)

  type Engine = View -> Reply

  /** One logged call. */
  datatype Exchange = Exchange(view: View, reply: Reply)

  /** A reply stays inside the buffers it was given. */
  predicate Fits(v: View, r: Reply)
  {
    r.consumed <= |v.avail| && |r.produced| <= v.room
  }

  /** The engine contract: every call stays inside its buffers. */
  ghost predicate Honest(e: Engine)
  {
    forall v: View :: Fits(v, e(v))
  }

  /** Every logged call is what `e` answers to its view (and so fits when
      `e` is honest). */
  ghost predicate Logged(log: seq<Exchange>, e: Engine)
  {
    forall i :: 0 <= i < |log| ==> log[i].reply == e(log[i].view)
  }

  /** The most recent element of a non-empty sequence. */
  function Last<T>(s: seq<T>): (x: T)
    requires |s| > 0
  {
    s[|s| - 1]
  }

  /** The input bytes a logged call consumed (all of `avail` should the
      reply claim more, which an honest engine never does). */
  function Taken(x: Exchange): (taken: seq<byte>)
  {
    x.view.avail[..Min(x.reply.consumed, |x.view.avail|)]
  }

  /** All input bytes consumed by the logged calls, in call order. */
  function Fed(log: seq<Exchange>): (fed: seq<byte>)
  {
    if log == [] then [] else Fed(log[..|log| - 1]) + Taken(Last(log))
  }

  /** All output bytes produced by the logged calls, in call order. */
  function Produced(log: seq<Exchange>): (out: seq<byte>)
  {
    if log == [] then [] else Produced(log[..|log| - 1]) + Last(log).reply.produced
  }

  /** Logging one more call extends the consumed input and the produced
      output by exactly that call's bytes. */
  lemma {:induction false} Append(log: seq<Exchange>, x: Exchange)
    ensures Fed(log + [x]) == Fed(log) + Taken(x)
    ensures Produced(log + [x]) == Produced(log) + x.reply.produced
  {
    assert (log + [x])[..|log|] == log;
  }
}
