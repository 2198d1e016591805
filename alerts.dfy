/** The price-alert decision of `main`: recomputed from the two limits and
    the current price on every run of the script, with no memory of earlier
    runs. */
module Alerts {

  /** No alert, "price went ABOVE upper" or "price dropped BELOW lower". */
  datatype Alert = NoAlert | Above(upper: real) | Below(lower: real)

  /** The if/elif on the sidebar limits. A limit that is not positive is
      switched off; both comparisons are strict; the upper limit is tested first. */
  function Decide(upper: real, lower: real, price: real): (a: Alert)
    ensures a.Above? ==> a.upper == upper
    ensures a.Below? ==> a.lower == lower
  {
    if upper > 0.0 && price > upper then Above(upper)
    else if lower > 0.0 && price < lower then Below(lower)
    else NoAlert
  }

  /** The alert fires above exactly when the upper limit is on and exceeded. */
  lemma AboveExactly(upper: real, lower: real, price: real)
    ensures Decide(upper, lower, price).Above? <==> upper > 0.0 && price > upper
  {
  }

  /** It fires below exactly when it does not fire above and the lower limit
      is on and undercut. */
  lemma BelowExactly(upper: real, lower: real, price: real)
    ensures Decide(upper, lower, price).Below? <==>
      !(upper > 0.0 && price > upper) && lower > 0.0 && price < lower
  {
  }

  /** When the upper limit fires, the lower limit is never consulted. */
  lemma AboveIgnoresLower(upper: real, lower: real, otherLower: real, price: real)
    requires upper > 0.0 && price > upper
    ensures Decide(upper, lower, price) == Decide(upper, otherLower, price) == Above(upper)
  {
  }

  /** A price equal to a limit never fires that limit. */
  lemma EqualityNeverFires(upper: real, lower: real)
    ensures !Decide(upper, lower, upper).Above?
    ensures !Decide(upper, lower, lower).Below?
  {
  }

  /** A limit at or below zero never fires, however far the price goes. */
  lemma DisabledLimitsNeverFire(upper: real, lower: real, price: real)
    ensures upper <= 0.0 ==> !Decide(upper, lower, price).Above?
    ensures lower <= 0.0 ==> !Decide(upper, lower, price).Below?
    ensures upper <= 0.0 && lower <= 0.0 ==> Decide(upper, lower, price) == NoAlert
  {
  }

  /** No alert exactly when neither switched-on limit is crossed. */
  lemma NoAlertExactly(upper: real, lower: real, price: real)
    ensures Decide(upper, lower, price) == NoAlert <==>
      (upper <= 0.0 || price <= upper) && (lower <= 0.0 || price >= lower)
  {
  }

  /** A higher price keeps an ABOVE alert firing and a lower price keeps a
      BELOW alert firing. */
  lemma AlertsPersist(upper: real, lower: real, price: real, next: real)
    ensures Decide(upper, lower, price).Above? && price <= next ==> Decide(upper, lower, next) == Above(upper)
    ensures Decide(upper, lower, price).Below? && next <= price ==> Decide(upper, lower, next) == Below(lower)
  {
  }

  /** With limits that overlap (upper below lower), a price between them is
      reported ABOVE: the order of the tests decides. */
  lemma OverlappingLimitsPreferAbove(upper: real, lower: real, price: real)
    requires 0.0 < upper < price < lower
    ensures Decide(upper, lower, price) == Above(upper)
  {
  }

  /** With a well-ordered band the order of the tests does not matter: the
      price is below the band exactly when the BELOW alert fires. */
  lemma OrderedBandBelow(upper: real, lower: real, price: real)
    requires 0.0 < lower <= upper
    ensures Decide(upper, lower, price) == Below(lower) <==> price < lower
  {
  }
}
