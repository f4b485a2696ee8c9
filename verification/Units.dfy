/** Segments are made of units of 32 bytes. */
module Units {

  const UNIT := 32  // sizeof(FreeSegment)
  const PAGE_SIZE := 4096
  const SEGMENT_SIZE_MAX := 0x10_0000

  /** alignSize */
  function AlignSize(size: nat): (r: nat)
    ensures r % UNIT == 0 && r >= size && r - size < UNIT
  {
    if size % UNIT != 0 then (size / UNIT + 1) * UNIT else size
  }
}
