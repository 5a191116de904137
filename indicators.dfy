/**
 * The closed set of eight indicators the monitor tracks, the order in which
 * it fetches them, and the static impact catalog that says what an increase
 * or a decrease of each one means for the crypto market.
 */
module Indicators {

  /** The eight tracked series. */
  datatype Indicator =
    | UnemploymentRate
    | RealGdp
    | ConsumerPriceIndex
    | FedInterestRate
    | ProducerPriceIndex
    | NonFarmPayroll
    | RetailSales
    | FearAndGreed

  /** The key under which the indicator is fetched, looked up and stored. */
  function Name(i: Indicator): string {
    match i
    case UnemploymentRate => "Unemployment Rate"
    case RealGdp => "Real GDP (FRED)"
    case ConsumerPriceIndex => "Consumer Price Index (CPI)"
    case FedInterestRate => "Fed Interest Rate Policy"
    case ProducerPriceIndex => "Producer Price Index (PPI)"
    case NonFarmPayroll => "Non-Farm Payroll Report"
    case RetailSales => "Retail Sales Data"
    case FearAndGreed => "Fear and Greed Index"
  }

  /** Different indicators are stored under different keys. */
  lemma NameInjective(a: Indicator, b: Indicator)
    ensures Name(a) == Name(b) ==> a == b
  {
  }

  /** The order of the fetch table: every indicator exactly once, each at its position. */
  function FetchOrder(): (r: seq<Indicator>)
    ensures |r| == 8
    ensures forall i: Indicator :: Position(i) < |r| && r[Position(i)] == i
    ensures forall i: Indicator :: i in r
    ensures forall a, b :: 0 <= a < b < |r| ==> r[a] != r[b]
  {
    var r := [UnemploymentRate, RealGdp, ConsumerPriceIndex, FedInterestRate,
              ProducerPriceIndex, NonFarmPayroll, RetailSales, FearAndGreed];
    assert forall i: Indicator :: Position(i) < |r| && r[Position(i)] == i && i in r;
    r
  }

  /** Where an indicator stands in the fetch table. */
  function Position(i: Indicator): nat {
    match i
    case UnemploymentRate => 0
    case RealGdp => 1
    case ConsumerPriceIndex => 2
    case FedInterestRate => 3
    case ProducerPriceIndex => 4
    case NonFarmPayroll => 5
    case RetailSales => 6
    case FearAndGreed => 7
  }

  /** Which way a changed value moved, as the monitor classifies it. */
  datatype Direction = Increase | Decrease

  /** The impact catalog: one text per indicator and direction. */
  function Impact(i: Indicator, d: Direction): (text: string)
    ensures MoodOf(text) != Unmarked
  {
    match i
    case UnemploymentRate =>
      if d == Increase then "行情利空，对币市看空 😔" else "行情利好，对币市看多 🙂"
    case RealGdp =>
      if d == Increase then "对经济有利，风险较大，对币市看多 🙂" else "对经济不利，风险较大，对币市看空 😔"
    case ConsumerPriceIndex =>
      if d == Increase then "对抗通胀有利，对币市看多 🙂" else "通胀减少无明显影响 😐"
    case FedInterestRate =>
      if d == Increase then "利率上升，对币市看空 😔" else "利率下降，对币市看多 🙂"
    case ProducerPriceIndex =>
      if d == Increase then "对抗通胀有利，对币市看多 🙂" else "生产成本下降无明显影响 😐"
    case NonFarmPayroll =>
      if d == Increase then "就业增加，对币市看多 🙂" else "就业减少，对币市看空 😔"
    case RetailSales =>
      if d == Increase then "消费增加，对币市看多 🙂" else "消费减少，对币市看空 😔"
    case FearAndGreed =>
      if d == Increase then "市场恐惧减弱，对币市看多 🙂" else "市场恐惧增强，对币市看空 😔"
  }

  /** The market mood an impact text carries, read from its closing emoji. */
  datatype Mood = Bullish | Bearish | Neutral | Unmarked

  function MoodOf(text: string): Mood {
    if text == [] then Unmarked
    else if text[|text| - 1] == '🙂' then Bullish
    else if text[|text| - 1] == '😔' then Bearish
    else if text[|text| - 1] == '😐' then Neutral
    else Unmarked
  }

  /**
   * The catalog is consistent: every text carries a mood, the two texts of
   * an indicator carry different moods, and they are never both neutral,
   * so each indicator reads as either higher-is-bullish or higher-is-bearish.
   */
  lemma ImpactMoods(i: Indicator)
    ensures MoodOf(Impact(i, Increase)) != Unmarked && MoodOf(Impact(i, Decrease)) != Unmarked
    ensures MoodOf(Impact(i, Increase)) != MoodOf(Impact(i, Decrease))
    ensures MoodOf(Impact(i, Increase)) == Bullish || MoodOf(Impact(i, Decrease)) == Bullish
  {
  }

}
