/**
 * The freshness rule every read path applies to the time elapsed since a
 * topic was first seen: under 4 hours "verde", under 24 hours "amarillo",
 * otherwise "rojo", with the colours the API reports. Elapsed time is in
 * whole seconds: since both thresholds are whole hours, comparing the floor
 * of the float duration gives the same answer as comparing the float.
 */
module Freshness {

  const HOUR: int := 3600
  const FRESH_LIMIT: int := 4 * HOUR
  const STALE_LIMIT: int := 24 * HOUR

  datatype Estado = Verde | Amarillo | Rojo

  /** The if/elif/else on `duracion_horas < 4` and `duracion_horas < 24`. */
  function Classify(elapsed: int): (e: Estado)
    ensures e == Verde <==> elapsed < FRESH_LIMIT
    ensures e == Amarillo <==> FRESH_LIMIT <= elapsed < STALE_LIMIT
    ensures e == Rojo <==> STALE_LIMIT <= elapsed
  {
    if elapsed < FRESH_LIMIT then Verde
    else if elapsed < STALE_LIMIT then Amarillo
    else Rojo
  }

  /** The `estado` string. */
  function Name(e: Estado): string {
    match e
    case Verde => "verde"
    case Amarillo => "amarillo"
    case Rojo => "rojo"
  }

  /** The `color` string. */
  function Color(e: Estado): string {
    match e
    case Verde => "#4caf50"
    case Amarillo => "#ffc107"
    case Rojo => "#f44336"
  }

  function Rank(e: Estado): nat {
    match e
    case Verde => 0
    case Amarillo => 1
    case Rojo => 2
  }

  /** A topic only ages: a longer elapsed time never gives a fresher state. */
  lemma ClassifyMonotone(s: int, t: int)
    requires s <= t
    ensures Rank(Classify(s)) <= Rank(Classify(t))
  {
  }

  /** 3h59m is verde, 4h00m amarillo, 23h59m amarillo, 24h00m rojo. */
  lemma ClassifyBoundaries()
    ensures Classify(3 * HOUR + 59 * 60) == Verde
    ensures Classify(4 * HOUR) == Amarillo
    ensures Classify(23 * HOUR + 59 * 60) == Amarillo
    ensures Classify(24 * HOUR) == Rojo
  {
  }

  /** Distinct states are reported with distinct names and colours. */
  lemma NamesAndColorsDistinct(a: Estado, b: Estado)
    requires a != b
    ensures Name(a) != Name(b) && Color(a) != Color(b)
  {
  }
}
