/** The limits and the chain link that several parts of the service share. */
module Domain {

  /** The most links a chain may follow before it is stopped. */
  const CHAIN_MAX_DEPTH: nat := 5

  /** The longest delay a chain link may have, in seconds. */
  const CHAIN_MAX_DELAY_SEC: nat := 3600

  /** The longest delay the runner hands over itself. */
  const CHAIN_DIRECT_MAX_SEC: nat := 120

  const DEFAULT_TIMEOUT_SEC: nat := 30
  const MIN_TIMEOUT_SEC: nat := 1
  const MAX_TIMEOUT_SEC: nat := 600

  /** condition is success, failure or always. */
  datatype Link = Link(source: int, target: int, condition: string, delay: int, active: bool)

  /** Links by id. */
  type Links = map<int, Link>
}
