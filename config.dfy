/** The numeric thresholds the chat turn reads from the service settings. */
module Config {

  datatype Settings = Settings(
    ragTopK: int,               // neighbours asked of the vector search
    ragMinScore: real,          // below this best similarity the turn escalates
    maxTurnsBeforeEscalate: int // from this turn on the turn escalates
  )

  /** The values the service ships with. */
  const Defaults := Settings(5, 0.12, 6)
}
