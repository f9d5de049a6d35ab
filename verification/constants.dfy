/** Physical constants shared by the solver and the verification helpers. */
module Constants {

  /** The speed of light in vacuum, in m/s (2.99792458e8). */
  const SpeedOfLight: real := 299792458.0
}
