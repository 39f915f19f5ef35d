/** The state of the drive's lock: main-loop code polls it, the snooper and the unlock change it. */
module Lock {
  datatype LockState = Locked | Unlocked | UnlockPending

  /** How many sectors a locked drive shows; a setting of the build. */
  const LOCKED_SECTORS: SectorCount

  type SectorCount = n: nat | 0 < n witness 1
}
