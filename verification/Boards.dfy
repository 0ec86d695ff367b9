/** Board configuration (pkg/engine/board.go). Instants are whole seconds since
    0001-01-01T00:00:00Z, the zero time. */
module Boards {
  type Instant = int

  datatype SortOrder = SortUnset | Desc | Asc | SortOther
  datatype UpdatePolicy = PolicyUnset | Best | LastWins | Increment | PolicyOther
  datatype TieBreak = TieUnset | Lexical | FirstToReach | TieOther

  datatype Config = Config(
    order: SortOrder,
    policy: UpdatePolicy,
    tie: TieBreak,
    scoreBits: nat,
    epoch: Instant,
    approx: bool,
    approxMin: real,
    approxMax: real,
    approxBuckets: int)

  /** Midnight at the start of a day. */
  function Midnight(day: int): Instant { 86400 * day }

  function DayOf(t: Instant): int { t / 86400 }

  /** 2020-01-01T00:00:00Z. */
  const DEFAULT_EPOCH: Instant := 86400 * 737424

  function WithDefaults(c: Config): Config {
    Config(
      if c.order.SortUnset? then Desc else c.order,
      if c.policy.PolicyUnset? then Best else c.policy,
      if c.tie.TieUnset? then Lexical else c.tie,
      if c.scoreBits == 0 then 20 else c.scoreBits,
      if c.epoch == 0 then DEFAULT_EPOCH else c.epoch,
      c.approx, c.approxMin, c.approxMax,
      if c.approx && c.approxBuckets == 0 then 1024 else c.approxBuckets)
  }

  predicate ValidConfig(c: Config) {
    var d := WithDefaults(c);
    && (d.order.Desc? || d.order.Asc?)
    && (d.policy.Best? || d.policy.LastWins? || d.policy.Increment?)
    && (d.tie.Lexical? || d.tie.FirstToReach?)
    && !(d.policy.Increment? && d.tie.FirstToReach?)
    && (d.tie.FirstToReach? ==> 1 <= d.scoreBits <= 52)
    && (d.approx ==> d.approxMax > d.approxMin && d.approxBuckets >= 1)
  }

  predicate IsAsc(c: Config) { WithDefaults(c).order.Asc? }

  predicate IsApprox(c: Config) { c.approx }
}
