/**
 * The stop policy both iterative-deepening drivers build from the `go` settings: a node budget
 * first, then a fixed move time, then a thirtieth of the mover's own clock, else never.
 * The elapsed time is an input: the milliseconds read from the clock when the policy is asked.
 */
module StopPolicy {
  import opened Wrappers
  import opened GameRules
  import opened Go

  /** What the searches count: visited positions and the deepest ply reached. */
  datatype SearchStats = SearchStats(nodes: nat, seldepth: int)

  const U128_LIMIT := 0x1_0000_0000_0000_0000_0000_0000_0000_0000

  /** `x as u128` for an `i32`: a negative value wraps to a huge one. */
  function AsU128(x: int): (r: nat)
    requires -0x8000_0000 <= x
    ensures x >= 0 ==> r == x
    ensures x < 0 ==> r >= U128_LIMIT - 0x8000_0000
  {
    if x < 0 then x + U128_LIMIT else x
  }

  /** Rust's `/` on integers: the quotient truncated toward zero. */
  function Quot(x: int, d: nat): (q: int)
    requires d > 0
    ensures x >= 0 ==> q * d <= x < q * d + d
    ensures x < 0 ==> q * d - d < x <= q * d
  {
    if x >= 0 then x / d else -((-x) / d)
  }

  /** The clock the policy falls back to: the mover's own remaining time. */
  function OwnTime(settings: GoSettings, us: Side): Option<int>
  {
    if us == Player1 then settings.p1time else settings.p2time
  }

  /** None of the three limits applies: the search runs to its full depth. */
  predicate Unlimited(settings: GoSettings, us: Side)
  {
    settings.nodes.None? && settings.movetime.None? && OwnTime(settings, us).None?
  }

  /** Times the parser accepts: `i32` values. */
  predicate TimesInRange(settings: GoSettings)
  {
    (settings.movetime.Some? ==> -0x8000_0000 <= settings.movetime.value)
    && (settings.p1time.Some? ==> -0x8000_0000 <= settings.p1time.value)
    && (settings.p2time.Some? ==> -0x8000_0000 <= settings.p2time.value)
  }

  /**
   * `should_stop`: a node budget decides alone, whatever the clock; otherwise a move time
   * stops once that many milliseconds have passed; otherwise a thirtieth of the mover's own
   * time (truncated) does; with none of them the search never stops.
   */
  function ShouldStop(settings: GoSettings, us: Side, nodes: nat, elapsed: nat): (stop: bool)
    requires TimesInRange(settings)
    ensures settings.nodes.Some? ==> (stop <==> nodes > settings.nodes.value)
    ensures settings.nodes.None? && settings.movetime.Some? && settings.movetime.value >= 0 ==>
      (stop <==> elapsed >= settings.movetime.value)
    ensures var own := OwnTime(settings, us);
      (settings.nodes.None? && settings.movetime.None? && own.Some? && own.value >= 0) ==>
        (stop <==> 30 * elapsed + 30 > own.value)
    ensures Unlimited(settings, us) ==> !stop
  {
    if settings.nodes.Some? then
      nodes > settings.nodes.value
    else if settings.movetime.Some? then
      elapsed >= AsU128(settings.movetime.value)
    else
      var ourTime := OwnTime(settings, us);
      if ourTime.Some? then
        var toUse := Quot(ourTime.value, 30);
        elapsed >= AsU128(toUse)
      else
        false
  }

  /** Once the policy says stop, more nodes and more time keep saying it. */
  lemma StopIsMonotone(settings: GoSettings, us: Side, nodes: nat, elapsed: nat, nodes': nat, elapsed': nat)
    requires TimesInRange(settings)
    requires nodes <= nodes' && elapsed <= elapsed'
    requires ShouldStop(settings, us, nodes, elapsed)
    ensures ShouldStop(settings, us, nodes', elapsed')
  {
  }

  /** With less than 30 ms on the mover's clock, the policy says stop before anything is searched. */
  lemma TinyClockStopsAtOnce(settings: GoSettings, us: Side)
    requires TimesInRange(settings)
    requires settings.nodes.None? && settings.movetime.None?
    requires OwnTime(settings, us).Some? && 0 <= OwnTime(settings, us).value < 30
    ensures ShouldStop(settings, us, 0, 0)
  {
  }
}
