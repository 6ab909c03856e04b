/** The integration's constants. */
module Const {

  /** Largest number of bytes one `recv` call hands back. */
  const Buffer: nat := 1024

  /** Default interval between status polls, in seconds. */
  const ScanInterval: nat := 60

  /** The command that asks the board for the state of every channel. */
  const StatusCommand: string := "00"
}
