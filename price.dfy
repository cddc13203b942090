/**
 * The price text fields of the search section and the two alert editors,
 * seen through `parseFloat`: prices are whole platinum amounts.
 */
module PriceField {
  import opened Wrappers

  /**
   * A price field: `Blank` is the empty string, `Number(v)` text that parses
   * to `v`, `NotANumber` any other text (`parseFloat` gives NaN).
   */
  datatype PriceInput = Blank | Number(value: int) | NotANumber

  /**
   * The values an `<input type="number">` can hold: the browser reports text
   * that is not a valid number as the empty string.
   */
  predicate FromNumberInput(p: PriceInput) {
    !p.NotANumber?
  }

  /** The field filled from a price with `toString()`. */
  function Shown(price: int): (p: PriceInput)
    ensures p.Number? && p.value == price && FromNumberInput(p)
  {
    Number(price)
  }

  /**
   * `parseFloat(field)` as it travels in a JSON body: the number, or `null`
   * for NaN (`JSON.stringify(NaN)`).
   */
  function Parsed(p: PriceInput): (v: Option<int>)
    ensures v.Some? <==> p.Number?
    ensures v.Some? ==> v.value == p.value
  {
    if p.Number? then Some(p.value) else None
  }

  /** The guard of `createAlert`: refuse when `!alertPrice || parseFloat(alertPrice) <= 0`. */
  predicate AcceptsNewAlertPrice(p: PriceInput) {
    !(p.Blank? || (p.Number? && p.value <= 0))
  }

  /**
   * On every value a number input can hold, the guard accepts exactly the
   * positive prices. A NaN comparison is false, so the guard on its own
   * does not refuse text that does not parse; the input type does.
   */
  lemma AcceptsNewAlertPriceSpec(p: PriceInput)
    ensures FromNumberInput(p) ==> (AcceptsNewAlertPrice(p) <==> p.Number? && p.value > 0)
    ensures AcceptsNewAlertPrice(p) ==> p.NotANumber? || p.value > 0
    ensures !AcceptsNewAlertPrice(Blank) && AcceptsNewAlertPrice(NotANumber)
  {
  }

  /** The check of `updateAlert`: refuse when `isNaN(newPrice) || newPrice < 0`. */
  predicate AcceptsEditedPrice(p: PriceInput) {
    !(p.Blank? || p.NotANumber? || (p.Number? && p.value < 0))
  }

  /**
   * An edited price is accepted exactly when it is a number `>= 0`: the empty
   * field and text that does not parse are NaN; 0 is allowed, although a new
   * alert at 0 is refused.
   */
  lemma AcceptsEditedPriceSpec(p: PriceInput)
    ensures AcceptsEditedPrice(p) <==> p.Number? && p.value >= 0
    ensures AcceptsEditedPrice(Number(0)) && !AcceptsNewAlertPrice(Number(0))
    ensures AcceptsNewAlertPrice(p) && FromNumberInput(p) ==> AcceptsEditedPrice(p)
  {
  }
}
