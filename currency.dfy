/**
 * The currency exchange tool offered to the autogen chatbot: a fixed rate table
 * between US dollars and euros, and the calculator that converts an amount and
 * returns it as a validated `Currency` record. Rates are exact reals.
 */
module Currency {
  import opened Prelude

  /** The two members of the `CurrencySymbol` literal type. */
  predicate IsCurrencySymbol(s: string)
  {
    s == "USD" || s == "EUR"
  }

  /** `exchange_rate`: equal currencies first, then the two cross rates, else ValueError. */
  function ExchangeRate(base: string, quote: string): (r: Result<real, string>)
    ensures r.Ok? <==> base == quote || (base == "USD" && quote == "EUR") || (base == "EUR" && quote == "USD")
    ensures r.Ok? ==> r.value > 0.0
    ensures r.Err? ==> r.error == "Unknown currencies " + base + ", " + quote
  {
    if base == quote then Ok(1.0)
    else if base == "USD" && quote == "EUR" then Ok(1.0 / 1.1)
    else if base == "EUR" && quote == "USD" then Ok(1.1)
    else Err("Unknown currencies " + base + ", " + quote)
  }

  /** Any currency, even one outside the literal type, converts to itself at 1. */
  lemma SameCurrencyIsUnit(c: string)
    ensures ExchangeRate(c, c) == Ok(1.0)
  {
  }

  /** Whenever a rate exists, the reverse rate exists and the two are reciprocal. */
  lemma ExchangeRateReciprocal(base: string, quote: string)
    requires ExchangeRate(base, quote).Ok?
    ensures ExchangeRate(quote, base).Ok?
    ensures ExchangeRate(base, quote).value * ExchangeRate(quote, base).value == 1.0
  {
    if base != quote {
      assert (1.0 / 1.1) * 1.1 == 1.0;
    }
  }

  /** What the calculator puts into the record's `currency` field. */
  datatype FieldValue = Symbol(text: string) | Number(x: real)

  /** A validated `Currency` record. */
  datatype CurrencyRecord = CurrencyRecord(currency: string, amount: real)

  /** The pydantic validation failures `Currency` can report. */
  datatype FieldError = CurrencyNotLiteral | AmountNegative

  /** Why the calculator produced no record. */
  datatype CalcError = ValueError(message: string) | ValidationError(errors: seq<FieldError>)

  /** The errors pydantic collects for `Currency(amount=..., currency=...)`, field order. */
  function FieldErrors(currency: FieldValue, amount: real): (errs: seq<FieldError>)
    ensures CurrencyNotLiteral in errs <==> !(currency.Symbol? && IsCurrencySymbol(currency.text))
    ensures AmountNegative in errs <==> amount < 0.0
  {
    (if currency.Symbol? && IsCurrencySymbol(currency.text) then [] else [CurrencyNotLiteral])
    + (if amount >= 0.0 then [] else [AmountNegative])
  }

  /** Constructing a `Currency`: a record when no field fails, else every failure. */
  function NewCurrency(currency: FieldValue, amount: real): (r: Result<CurrencyRecord, CalcError>)
    ensures r.Ok? <==> currency.Symbol? && IsCurrencySymbol(currency.text) && amount >= 0.0
    ensures r.Ok? ==> r.value == CurrencyRecord(currency.text, amount)
    ensures r.Err? ==> r.error == ValidationError(FieldErrors(currency, amount))
  {
    var errs := FieldErrors(currency, amount);
    if errs == [] then Ok(CurrencyRecord(currency.text, amount))
    else Err(ValidationError(errs))
  }

  /** The converted amount, `exchange_rate(base, quote) * base_amount`. */
  function QuoteAmount(baseAmount: real, base: string, quote: string): (r: Result<real, string>)
    ensures r.Ok? <==> ExchangeRate(base, quote).Ok?
    ensures r.Err? ==> r.error == ExchangeRate(base, quote).error
    ensures r.Ok? ==> r.value == ExchangeRate(base, quote).value * baseAmount
    ensures r.Ok? ==> (r.value >= 0.0 <==> baseAmount >= 0.0)
  {
    match ExchangeRate(base, quote)
    case Err(msg) => Err(msg)
    case Ok(rate) => Ok(rate * baseAmount)
  }

  /** `currency_calculator` as written: the amount is passed as the currency too. */
  function CurrencyCalculatorAsWritten(baseAmount: real, base: string := "USD", quote: string := "EUR")
    : (r: Result<CurrencyRecord, CalcError>)
    ensures ExchangeRate(base, quote).Err? ==> r == Err(ValueError(ExchangeRate(base, quote).error))
  {
    match QuoteAmount(baseAmount, base, quote)
    case Err(msg) => Err(ValueError(msg))
    case Ok(q) => NewCurrency(Number(q), q)
  }

  /** As written, the calculator never returns a record: the currency field always fails. */
  lemma AsWrittenNeverSucceeds(baseAmount: real, base: string, quote: string)
    ensures CurrencyCalculatorAsWritten(baseAmount, base, quote).Err?
    ensures ExchangeRate(base, quote).Ok? ==>
      CurrencyNotLiteral in CurrencyCalculatorAsWritten(baseAmount, base, quote).error.errors
  {
  }

  /** The chat's opening question, 123.45 USD in EUR, fails validation as written. */
  lemma AsWrittenExampleFails()
    ensures CurrencyCalculatorAsWritten(123.45) == Err(ValidationError([CurrencyNotLiteral]))
  {
    var q := (1.0 / 1.1) * 123.45;
    assert QuoteAmount(123.45, "USD", "EUR") == Ok(q);
    assert q >= 0.0;
    assert FieldErrors(Number(q), q) == [CurrencyNotLiteral];
  }

  /** `currency_calculator` with the quote currency in the `currency` field. */
  function CurrencyCalculator(baseAmount: real, base: string := "USD", quote: string := "EUR")
    : (r: Result<CurrencyRecord, CalcError>)
    ensures ExchangeRate(base, quote).Err? ==> r == Err(ValueError(ExchangeRate(base, quote).error))
    ensures r.Ok? ==> r.value.currency == quote
  {
    match QuoteAmount(baseAmount, base, quote)
    case Err(msg) => Err(ValueError(msg))
    case Ok(q) => NewCurrency(Symbol(quote), q)
  }

  /**
   * The corrected calculator returns the converted amount in the quote
   * currency exactly when both currencies are dollars or euros and the amount
   * is not negative.
   */
  lemma CurrencyCalculatorConverts(baseAmount: real, base: string, quote: string)
    ensures CurrencyCalculator(baseAmount, base, quote).Ok? <==>
      IsCurrencySymbol(base) && IsCurrencySymbol(quote) && baseAmount >= 0.0
    ensures CurrencyCalculator(baseAmount, base, quote).Ok? ==>
      CurrencyCalculator(baseAmount, base, quote).value
        == CurrencyRecord(quote, ExchangeRate(base, quote).value * baseAmount)
  {
    var rate := ExchangeRate(base, quote);
    if rate.Ok? {
      assert rate.value > 0.0;
      assert rate.value * baseAmount >= 0.0 <==> baseAmount >= 0.0;
    }
  }

  /** Converting there and back with the corrected calculator returns the original amount. */
  lemma CurrencyCalculatorRoundTrip(baseAmount: real, base: string, quote: string)
    requires CurrencyCalculator(baseAmount, base, quote).Ok?
    ensures var there := CurrencyCalculator(baseAmount, base, quote).value;
      CurrencyCalculator(there.amount, quote, base) == Ok(CurrencyRecord(base, baseAmount))
  {
    CurrencyCalculatorConverts(baseAmount, base, quote);
    ExchangeRateReciprocal(base, quote);
    var r1, r2 := ExchangeRate(base, quote).value, ExchangeRate(quote, base).value;
    var amount := r1 * baseAmount;
    assert CurrencyCalculator(baseAmount, base, quote).value == CurrencyRecord(quote, amount);
    if base == quote {
      assert r1 == 1.0 && r2 == 1.0;
    } else if base == "USD" {
      assert r1 == 1.0 / 1.1 && r2 == 1.1;
    } else {
      assert r1 == 1.1 && r2 == 1.0 / 1.1;
    }
    assert amount >= 0.0;
    assert r2 * amount == (r2 * r1) * baseAmount == baseAmount;
    CurrencyCalculatorConverts(amount, quote, base);
  }
}
