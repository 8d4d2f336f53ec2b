/** Tiles and points. */
module Coordinates {
  type int32 = i: int | -0x8000_0000 <= i < 0x8000_0000

  datatype Tile = Tile(x: int, y: int)

  /** Projected latitude and longitude, in units of 10^-7 degrees. */
  datatype LatpLon = LatpLon(latp: int32, lon: int32)
}
