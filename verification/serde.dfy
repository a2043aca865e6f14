/**
 * The field deserialisers of obagg/src/serde.rs. The string parsers they wrap (`u32::from_str`,
 * `u64::from_str`, `Decimal::from_str`, `f64::from_str`) are parameters: each yields a value or an
 * error message.
 */
module Serde {
  import opened Wrappers

  /** `serde::de::Error::custom(msg)`. */
  datatype DeError = Custom(msg: string)

  newtype U32 = x: int | 0 <= x < 0x1_0000_0000
  newtype U64 = x: int | 0 <= x < 0x1_0000_0000_0000_0000

  const LengthError: string := "Failed to deserialize both price and amount from level. Levels must contain 2 elements."
  const BothFailedPrefix: string := "Failed to deserialize both price and amount from level! "

  /**
   * `u32_from_str`: the string the deserializer yields, parsed as an unsigned 32-bit integer; a
   * parser failure becomes a custom error with the parser's message.
   */
  function U32FromStr(s: Result<string, DeError>, parse: string -> Result<U32, string>): (r: Result<U32, DeError>)
    ensures s.Failure? ==> r == Failure(s.error)
    ensures r.Success? <==> s.Success? && parse(s.value).Success?
    ensures r.Success? ==> r.value == parse(s.value).value
    ensures s.Success? && parse(s.value).Failure? ==> r == Failure(Custom(parse(s.value).error))
  {
    match s
    case Failure(e) => Failure(e)
    case Success(str) =>
      match parse(str)
      case Success(n) => Success(n)
      case Failure(e) => Failure(Custom(e))
  }

  /** `u64_from_str`: as `u32_from_str`, for an unsigned 64-bit integer. */
  function U64FromStr(s: Result<string, DeError>, parse: string -> Result<U64, string>): (r: Result<U64, DeError>)
    ensures s.Failure? ==> r == Failure(s.error)
    ensures r.Success? <==> s.Success? && parse(s.value).Success?
    ensures r.Success? ==> r.value == parse(s.value).value
    ensures s.Success? && parse(s.value).Failure? ==> r == Failure(Custom(parse(s.value).error))
  {
    match s
    case Failure(e) => Failure(e)
    case Success(str) =>
      match parse(str)
      case Success(n) => Success(n)
      case Failure(e) => Failure(Custom(e))
  }

  /**
   * `tf64_from_str`: a `[price, amount]` pair of strings, parsed into `(price, amount)`. The list
   * must have exactly two elements; a single failed part yields that part's error, and two failed
   * parts yield one error naming both.
   */
  function Tf64FromStr(v: Result<seq<string>, DeError>, parsePrice: string -> Result<real, string>, parseAmount: string -> Result<real, string>)
    : (r: Result<(real, real), DeError>)
    ensures r.Success? <==>
      v.Success? && |v.value| == 2 && parsePrice(v.value[0]).Success? && parseAmount(v.value[1]).Success?
    ensures r.Success? ==> r.value == (parsePrice(v.value[0]).value, parseAmount(v.value[1]).value)
  {
    match v
    case Failure(e) => Failure(e)
    case Success(parts) =>
      if |parts| != 2 then Failure(Custom(LengthError))
      else
        match (parsePrice(parts[0]), parseAmount(parts[1]))
        case (Success(p), Success(a)) => Success((p, a))
        case (Failure(e), Success(_)) => Failure(Custom(e))
        case (Success(_), Failure(e)) => Failure(Custom(e))
        case (Failure(e1), Failure(e2)) => Failure(Custom(BothFailedPrefix + e1 + " " + e2))
  }

  /** A list that is not of length two is rejected with the fixed length message, before any parsing. */
  lemma Tf64RejectsWrongLength(parts: seq<string>, parsePrice: string -> Result<real, string>, parseAmount: string -> Result<real, string>)
    requires |parts| != 2
    ensures Tf64FromStr(Success(parts), parsePrice, parseAmount) == Failure(Custom(LengthError))
  {
  }

  /** When exactly one of the two parts fails to parse, its own message is the error. */
  lemma Tf64SingleFailure(price: string, amount: string, parsePrice: string -> Result<real, string>, parseAmount: string -> Result<real, string>)
    ensures var r := Tf64FromStr(Success([price, amount]), parsePrice, parseAmount);
      && (parsePrice(price).Failure? && parseAmount(amount).Success? ==> r == Failure(Custom(parsePrice(price).error)))
      && (parsePrice(price).Success? && parseAmount(amount).Failure? ==> r == Failure(Custom(parseAmount(amount).error)))
  {
  }

  /** When both parts fail, one error carries both messages, the price's first. */
  lemma Tf64CombinedFailure(price: string, amount: string, parsePrice: string -> Result<real, string>, parseAmount: string -> Result<real, string>)
    requires parsePrice(price).Failure? && parseAmount(amount).Failure?
    ensures var r := Tf64FromStr(Success([price, amount]), parsePrice, parseAmount);
            var e1 := parsePrice(price).error; var e2 := parseAmount(amount).error;
      && r.Failure?
      && r.error.msg[..|BothFailedPrefix|] == BothFailedPrefix
      && r.error.msg[|BothFailedPrefix|..] == e1 + " " + e2
  {
  }
}
