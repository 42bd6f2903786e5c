/** What identifies a tile and an archive baked for it (crates/catalyrst-bvimposters/src/key.rs). */
module Keys {

  datatype TileKey = TileKey(level: nat, x: int, y: int)

  datatype ImposterKey = ImposterKey(tile: TileKey, crc: nat)
}
