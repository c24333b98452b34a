/** Who performs an operation. */
module Actors {

  datatype Kind = User | Service | System | Anonymous
}
