/** 16:16 tiled addressing (src/loader/doscalls.rs, `dos_flat_to_sel` and `dos_sel_to_flat`). */
module Selectors {
  import opened Bytes

  const TILED_SEL_START_INDEX := 6
  const NUM_TILES := 4096
  const TILED_CODE_START_INDEX := TILED_SEL_START_INDEX + NUM_TILES
  const TILE_SIZE := 0x1_0000

  /** Tile selector in the high half, offset in the low half; the shift drops high bits. */
  function FlatToSel(flat: u32): u32 {
    (TILED_SEL_START_INDEX + flat / TILE_SIZE) * 8 * TILE_SIZE % TWO32 + flat % TILE_SIZE
  }

  function SelToFlat(selOff: u32): u32 {
    var offset := selOff % TILE_SIZE;
    var index := selOff / TILE_SIZE / 8;
    if index >= TILED_CODE_START_INDEX then (index - TILED_CODE_START_INDEX) * TILE_SIZE + offset
    else if index >= TILED_SEL_START_INDEX then (index - TILED_SEL_START_INDEX) * TILE_SIZE + offset
    else offset
  }

  /** The conversions undo each other exactly below 256 MB, where the data tiles end. */
  lemma SelectorRoundTrip(flat: u32)
    ensures SelToFlat(FlatToSel(flat)) == flat <==> flat < NUM_TILES * TILE_SIZE
  {
    var tile := flat / TILE_SIZE;
    var index := (TILED_SEL_START_INDEX + tile) % 0x2000;
    assert (TILED_SEL_START_INDEX + tile) * 8 * TILE_SIZE % TWO32 == index * 8 * TILE_SIZE;
    assert FlatToSel(flat) / TILE_SIZE == index * 8;
    assert FlatToSel(flat) / TILE_SIZE / 8 == index;
    assert FlatToSel(flat) % TILE_SIZE == flat % TILE_SIZE;
    if flat < NUM_TILES * TILE_SIZE {
      assert index == TILED_SEL_START_INDEX + tile;
    }
  }
}
