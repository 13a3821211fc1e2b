/** Venue-facing identifiers and sides shared by every component. */
module VenueTypes {
  import opened MachineInt

  type TokenId = string
  type OrderId = string
  type TradeId = string
  type ConditionId = string

  datatype OrderSide = Buy | Sell

  datatype OutcomeSide = Yes | No

  /** Share amounts in millionths: the user channel parses them fail-closed on negatives. */
  type Atoms = n: int | 0 <= n <= I64_MAX
}
