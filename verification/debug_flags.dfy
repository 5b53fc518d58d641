/**
 * Debug switches (NextBots.Debug.cs): the flags word, the two `IsDebugging`
 * tests, message gating and the `nb_debug` toggle.  A flags value is the set
 * of its bit positions: `|` is union, `& ~` difference, `HasFlag` inclusion.  What a
 * message says is a side channel; here a message is the line it would log.
 */
module DebugFlags {

  /** `NextBotDebugFlags`, an `int` flags enum. */
  type Flags = set<nat>

  const None: Flags := {}
  const Behavior: Flags := {0}
  const Events: Flags := {1}
  const Locomotion: Flags := {2}
  const Path: Flags := {3}
  const Vision: Flags := {4}
  /** 0xFFFF: the low sixteen bits. */
  const All: Flags := set i: nat | i < 16

  /** `IsDebugging(flag)`: `HasFlag`, every bit of `flag` is on. */
  predicate IsDebuggingFlag(d: Flags, flag: Flags) {
    flag <= d
  }

  /** `IsDebugging()`: any bit is on. */
  predicate IsDebugging(d: Flags) {
    d != {}
  }

  /** The two tests agree on what "nothing" means: `None` is always on, and any flag being on means debugging. */
  lemma IsDebuggingCases(d: Flags, flag: Flags)
    ensures IsDebuggingFlag(d, None)
    ensures flag != {} && IsDebuggingFlag(d, flag) ==> IsDebugging(d)
    ensures IsDebugging(d) <==> !IsDebuggingFlag(None, d)
  {
  }

  datatype LogLine = Info(text: string) | Error(text: string)

  /** `Msg(flags, message)`: logged as information exactly when those flags are on. */
  function Msg(d: Flags, flags: Flags, message: string): (r: seq<LogLine>)
    ensures |r| <= 1
    ensures r != [] <==> IsDebuggingFlag(d, flags)
    ensures r != [] ==> r[0] == Info(message)
  {
    if flags <= d then [Info(message)] else []
  }

  /** `MsgError(flags, message)`: logged as an error exactly when those flags are on. */
  function MsgError(d: Flags, flags: Flags, message: string): (r: seq<LogLine>)
    ensures |r| <= 1
    ensures r != [] <==> IsDebuggingFlag(d, flags)
    ensures r != [] ==> r[0] == Error(message)
  {
    if flags <= d then [Error(message)] else []
  }

  /**
   * `nb_debug(flag)`: if all of the flag's bits are on they are turned off,
   * otherwise they are all turned on; no other bit changes.
   */
  function NbDebug(d: Flags, flag: Flags): (r: Flags)
    ensures r - flag == d - flag
    ensures IsDebuggingFlag(d, flag) ==> r * flag == {}
    ensures !IsDebuggingFlag(d, flag) ==> IsDebuggingFlag(r, flag)
  {
    if flag <= d then d - flag else d + flag
  }

  /** A toggle flips whether a non-empty flag is on; toggling `None` changes nothing. */
  lemma NbDebugToggles(d: Flags, flag: Flags)
    ensures flag != {} ==> (IsDebuggingFlag(NbDebug(d, flag), flag) <==> !IsDebuggingFlag(d, flag))
    ensures NbDebug(d, None) == d
  {
  }

  /** Toggling a single-bit flag twice restores the flags. */
  lemma NbDebugTwiceRestores(d: Flags, flag: Flags)
    requires flag == Behavior || flag == Events || flag == Locomotion || flag == Path || flag == Vision
    ensures NbDebug(NbDebug(d, flag), flag) == d
  {
  }

  /**
   * For a flag of several bits that is only partly on, the first toggle
   * turns all of it on and the second all of it off: twice is not a no-op.
   */
  lemma NbDebugTwicePartial(d: Flags, flag: Flags)
    requires !IsDebuggingFlag(d, flag)
    ensures NbDebug(NbDebug(d, flag), flag) == d - flag
  {
  }
}
