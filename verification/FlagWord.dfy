/** The flag word of an event flags object, and what the three helpers of rtx_evflags.c do to it. */
module FlagWord {
  import opened Bits
  import opened RetryLoops
  import opened AtomicOps

  const WAIT_ALL: bit := 0   // osFlagsWaitAll, 0x1
  const NO_CLEAR: bit := 1   // osFlagsNoClear, 0x2
  const ERROR: bit := 31     // osFlagsError, 0x80000000

  const OS_ERROR_TIMEOUT: Word := set b: bit | b != 0              // -2
  const OS_ERROR_RESOURCE: Word := set b: bit | b != 1             // -3
  const OS_ERROR_PARAMETER: Word := set b: bit | b != 0 && b != 1  // -4

  /** The parameter check of the service calls: only the 31 flags below the error bit. */
  predicate ValidFlags(flags: Word) {
    ERROR !in flags
  }

  predicate Clears(options: Word) {
    NO_CLEAR !in options
  }

  /** The condition a waiter asks for: all its flags, or any of them. */
  predicate Condition(word: Word, flags: Word, options: Word) {
    if WAIT_ALL in options then word * flags == flags else word * flags != {}
  }

  /** What EventFlagsCheck returns: the flags before clearing, or 0. */
  function Check(word: Word, flags: Word, options: Word): Word {
    if Condition(word, flags, options) then word else {}
  }

  /** What EventFlagsCheck leaves in the word. */
  function Checked(word: Word, flags: Word, options: Word): Word {
    if Condition(word, flags, options) && Clears(options) then word - flags else word
  }

  /** A check that returns 0 leaves the word as it was, also in the case of waiting for all of no flags. */
  lemma FailedCheckKeeps(word: Word, flags: Word, options: Word)
    ensures Check(word, flags, options) == {} ==> Checked(word, flags, options) == word
  {
    assert word == {} ==> word - flags == word;
  }

  /** Removing flags never satisfies anybody. */
  lemma CheckMonotone(word: Word, less: Word, flags: Word, options: Word)
    requires less <= word && Check(less, flags, options) != {}
    ensures Check(word, flags, options) != {}
  {
    var b :| b in less;
    assert b in word;
    if WAIT_ALL in options {
      assert flags <= less;
    } else {
      var c :| c in less * flags;
      assert c in word * flags;
    }
  }

  /** Delivered values are sound: non-zero, the error bit clear, and meeting the waiter's own condition. */
  lemma DeliveredSound(word: Word, flags: Word, options: Word)
    requires ValidFlags(word) && Check(word, flags, options) != {}
    ensures ERROR !in Check(word, flags, options)
    ensures Condition(Check(word, flags, options), flags, options)
  {
  }

  // ---- The two builds of the helpers agree ----

  /** The loop EventFlagsCheck runs in the build with exclusive access, when the options ask for clearing. */
  ghost function CheckLoop(flags: Word, options: Word): Rmw<Word> {
    if WAIT_ALL in options then CheckAll(flags) else CheckAny(flags)
  }

  /** The retry loops, taken as single steps, return and leave what the helpers promise. */
  lemma LoopsMatchHelpers(word: Word, flags: Word, options: Word)
    ensures AtomicWord().reply(SetBits(flags), word) == word + flags == AtomicWord().leaves(SetBits(flags), word)
    ensures AtomicWord().reply(ClearBits(flags), word) == word &&
        AtomicWord().leaves(ClearBits(flags), word) == word - flags
    ensures Clears(options) ==>
              && AtomicWord().reply(CheckLoop(flags, options), word) == Check(word, flags, options)
              && AtomicWord().leaves(CheckLoop(flags, options), word) == Checked(word, flags, options)
  {
    assert WAIT_ALL in options ==> CheckLoop(flags, options) == CheckAll(flags);
  }
}
