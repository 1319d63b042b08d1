/** The width of the machine's words, and the constants of param.h that only bound things.  The latter
    are fixed but not given: what is proved holds for the values that param.h has, and for any others. */
module Params {
  /** One more than the largest value of an unsigned int. */
  const UINT: nat := 0x1_0000_0000

  type Positive = x: nat | x > 0 witness 1

  /** Blocks that one file system operation may log: 10.  With fewer than 6 filewrite would have no
      room for a block of data, and the list of a log of three operations has to fit its header. */
  type OpBlocks = x: nat | 6 <= x <= 42 witness 10

  const MAXOPBLOCKS: OpBlocks
  const LOGSIZE: nat := 3 * MAXOPBLOCKS

  /** Scheduling: 4 levels, a quantum of 2 ticks at the lowest, an aging pass every 5 ticks, and a
      boost after 10. */
  const NPRIO: Positive
  const QUANTUM_BASE: Positive
  const AGING_INTERVAL: Positive
  const AGING_TICKS: Positive
}
