/** How `decompress` reacts to the status of a decoder step, and the
    diagnostics it reports. */
module Classify {
  import opened Engine

  /** The diagnostics `decompress` writes to stderr before returning 1. */
  datatype Msg =
    | AllocFailed
    | MemLimit
    | NotXz
    | BadOptions
    | Corrupt
    | WriteError
    | Bug

  /** The exact text of each diagnostic. */
  function Text(m: Msg): (text: string)
  {
    match m
    case AllocFailed => "Memory allocation failed\n"
    case MemLimit => "Memory usage limit reached\n"
    case NotXz => "Not a .xz file\n"
    case BadOptions => "Unsupported options in the .xz headers\n"
    case Corrupt => "File is corrupt\n"
    case WriteError => "Write error\n"
    case Bug => "Bug!\n"
  }

  /** How a call to `decompress` ends: returning 0, returning 1 after one
      diagnostic, or (in this model only) still looping when the step budget
      is spent. */
  datatype Exit = Succeeded | Failed(msg: Msg) | Suspended

  /** The value `decompress` returns. */
  function Code(x: Exit): (c: int)
    requires !x.Suspended?
    ensures c == 0 || c == 1
    ensures c == 0 <==> x.Succeeded?
  {
    if x.Succeeded? then 0 else 1
  }

  /** What the loop does after a step: go round again, go round again after
      a warning, or leave the loop. */
  datatype Action = Continue | Warn | Stop

  /** `XZ_OK` always loops; `XZ_UNSUPPORTED_CHECK` loops with a warning only
      when the decoder was built with `XZ_DEC_ANY_CHECK`; every other status
      leaves the loop. */
  function ActionOf(ret: Ret, anyCheck: bool): (a: Action)
    ensures a == Continue <==> ret == Ok
    ensures a == Warn <==> anyCheck && ret == UnsupportedCheck
    ensures a == Stop <==> ret != Ok && !(anyCheck && ret == UnsupportedCheck)
  {
    if ret == Ok then Continue
    else if anyCheck && ret == UnsupportedCheck then Warn
    else Stop
  }

  /** The closing `switch`, reached after the final flush succeeded. */
  function Verdict(ret: Ret): (x: Exit)
    ensures !x.Suspended?
    ensures x.Succeeded? <==> ret == StreamEnd
    ensures x != Failed(WriteError)
    ensures x == Failed(Corrupt) <==> ret == DataError || ret == BufError
    ensures x == Failed(Bug) <==> ret == Ok || ret == UnsupportedCheck || ret == Other
  {
    match ret
    case StreamEnd => Succeeded
    case MemError => Failed(AllocFailed)
    case MemlimitError => Failed(MemLimit)
    case FormatError => Failed(NotXz)
    case OptionsError => Failed(BadOptions)
    case DataError => Failed(Corrupt)
    case BufError => Failed(Corrupt)
    case _ => Failed(Bug)
  }

  /** Without `XZ_DEC_ANY_CHECK` an unsupported integrity check falls through
      to the `default:` branch; with it, it never leaves the loop. */
  lemma UnsupportedCheckPath(anyCheck: bool)
    ensures anyCheck ==> ActionOf(UnsupportedCheck, anyCheck) == Warn
    ensures !anyCheck ==> ActionOf(UnsupportedCheck, anyCheck) == Stop
                          && Verdict(UnsupportedCheck) == Failed(Bug)
  {
  }

  /** Each diagnostic text names exactly one failure category. */
  lemma DiagnosticsDistinct(m1: Msg, m2: Msg)
    ensures Text(m1) == Text(m2) <==> m1 == m2
  {
  }
}
