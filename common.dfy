/** Types shared by the segment extractor and the patch area estimator. */
module Common {

  /** A 3D point; coordinates are exact reals (the source uses float and double). */
  datatype Point = Point(x: real, y: real, z: real)

  /** The origin, which is also what a default-constructed vector holds. */
  const Origin: Point := Point(0.0, 0.0, 0.0)

  /** The outcome of an operation guarded by a run-time assertion that throws when it fails. */
  datatype Result<T> = Ok(value: T) | AssertionFailed
}
