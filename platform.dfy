/** Platform values the core passes around without looking inside them. */
module Platform {

  /** A world location; its coordinates, yaw and pitch are not modelled, only which location it is. */
  datatype Location = Location(handle: nat)
}
