/** Definitions that several components share. */
module Common {

  datatype Option<+T> = None | Some(value: T)

  /** Blocks per segment of the allocation bitmap. */
  const SEGMENT_SIZE: nat := 0x4_0000
}
