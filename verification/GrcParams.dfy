/** The Golomb-Rice parameters that the search and the slices choose from. */
module GrcParams {
  import opened SliceFormat

  const NWCFG: nat := 13
  const NZCFG: nat := 4

  /** trunc * 16 + div; trunc == 2 means uncompressed. */
  const W_GRC_PARAMS: seq<nat> := [0x00, 0x01, 0x02, 0x03, 0x04, 0x05, 0x10, 0x11, 0x12, 0x13, 0x14, 0x15, 0x20]
  const Z_GRC_PARAMS: seq<nat> := [0x00, 0x01, 0x02, 0x03, 0x04]

  function ModeOf(cfg: nat): (m: Mode)
    requires cfg < NWCFG
    ensures m.Golomb? ==> m.div <= 5
    ensures m.Uncompressed? <==> cfg == 12
  {
    var p := W_GRC_PARAMS[cfg];
    if p / 16 == 2 then Uncompressed else Golomb(p % 16, p / 16 == 1)
  }
}
