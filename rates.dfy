/** The pay and bill rate defaulting applied to a project's `pay_rate` and `bill_rate` and to
    each member's: `null` is sent as `null` (it removes the rate), an empty or missing rate
    becomes 1.00, and a rate is kept only when it converts to a number of at least 0.01. */
module Rates {
  import opened JsNumbers
  import opened JsValues

  /** The smallest rate kept as given. */
  const MinRate: Num := Fin(0.01)

  /** The rate sent when none usable is given. */
  const DefaultRateValue: Value := Number(Fin(1.0))

  /** The normalized rate for the raw parameter `v`. */
  function NormalizeRate(v: Value): Value {
    if v == Null then Null
    else if v == Str("") || v == Undefined then DefaultRateValue
    else
      var n := ToNumber(v);
      if n != NaN && GreaterEq(n, MinRate) then Number(n) else DefaultRateValue
  }

  /** The result is `null` exactly for `null`; anything else gives a number of at least 0.01,
      and it is either the converted input or the default 1.00. */
  lemma {:induction false} RateRange(v: Value)
    ensures NormalizeRate(v) == Null <==> v == Null
    ensures v != Null ==> NormalizeRate(v).Number? && GreaterEq(NormalizeRate(v).n, MinRate)
    ensures v != Null ==> NormalizeRate(v) == DefaultRateValue || NormalizeRate(v) == Number(ToNumber(v))
  {
  }

  /** A usable rate is kept: anything converting to at least 0.01 passes through unchanged. */
  lemma {:induction false} UsableRateKept(v: Value)
    requires v != Null && v != Str("") && v != Undefined
    requires GreaterEq(ToNumber(v), MinRate)
    ensures NormalizeRate(v) == Number(ToNumber(v))
  {
    assert ToNumber(v) != NaN;
  }

  /** Rates below 0.01, zero, negative and non-numeric rates fall back to 1.00. */
  lemma {:induction false} UnusableRateDefaults(v: Value)
    requires v != Null
    requires !GreaterEq(ToNumber(v), MinRate)
    ensures NormalizeRate(v) == DefaultRateValue
  {
  }

  /** Normalizing is idempotent: an already normalized rate is sent as it is. */
  lemma {:induction false} NormalizeRateIdempotent(v: Value)
    ensures NormalizeRate(NormalizeRate(v)) == NormalizeRate(v)
  {
    var r := NormalizeRate(v);
    if r != Null {
      RateRange(v);
      assert ToNumber(r) == r.n;
      assert GreaterEq(r.n, MinRate);
      assert r.n != NaN;
    }
  }

  /** A whole-number rate typed as text, such as `"25"`, is sent as that number; `"0"` is sent
      as 1.00. */
  lemma {:induction false} NumeralRate(k: nat)
    ensures NormalizeRate(Str(Numeral(k))) == if k >= 1 then Number(Fin(k as real)) else DefaultRateValue
  {
    NumeralToNumber(k);
    assert |Numeral(k)| >= 1;
    ConvertedRate(Str(Numeral(k)), Fin(k as real));
    WholeRateUsable(k);
  }

  /** Away from `null`, `""` and `undefined` the rule looks only at the converted number. */
  lemma {:induction false} ConvertedRate(v: Value, n: Num)
    requires v != Null && v != Str("") && v != Undefined && ToNumber(v) == n
    ensures NormalizeRate(v) == if GreaterEq(n, MinRate) then Number(n) else DefaultRateValue
  {
  }

  /** A whole number is a usable rate exactly when it is at least 1. */
  lemma {:induction false} WholeRateUsable(k: nat)
    ensures GreaterEq(Fin(k as real), MinRate) <==> k >= 1
  {
  }
}
