/** The buffered readers of the codec. */
module BufferedReading {
  const BUFFER := 131072

  /** The reads without data a buffered reader puts up with. */
  const MAX_EMPTY_READS := 100
}
