/** The sizes that several parts of the source share. */
module Limits {
  /** Q_DEFAULT_SIZE. */
  const Q_SIZE: nat := 50

  /** `unsigned int` arithmetic is modulo this. */
  const UINT32: nat := 0x1_0000_0000
}
