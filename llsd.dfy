/**
 * The structured-document values (LLSD) that keyword files, simulator
 * features and capability responses are made of, with the conversions the
 * syntax-id code applies to them. Real numbers, dates, URIs and binary
 * values are not modelled.
 */
module Llsd {
  import opened Wrappers
  import opened Uuids

  /** LLSD::Integer is a signed 32-bit integer. */
  newtype int32 = x: int | -0x8000_0000 <= x < 0x8000_0000

  datatype Value =
    | Undefined
    | Boolean(b: bool)
    | Integer(i: int32)
    | Str(s: string)
    | UuidValue(u: Uuid)
    | Array(items: seq<Value>)
    | Map(entries: map<string, Value>)

  /** LLSD::has: only a map has keys. */
  predicate Has(v: Value, key: string) {
    v.Map? && key in v.entries
  }

  /** LLSD::operator[] on a key: an absent key reads as an undefined value. */
  function Get(v: Value, key: string): Value {
    if Has(v, key) then v.entries[key] else Undefined
  }

  predicate AllDigits(s: string) {
    forall i :: 0 <= i < |s| ==> '0' <= s[i] <= '9'
  }

  function DigitsValue(s: string): nat
    requires AllDigits(s)
  {
    if s == [] then 0 else DigitsValue(s[..|s| - 1]) * 10 + (s[|s| - 1] as int - '0' as int)
  }

  /** A string of decimal digits with an optional leading minus sign. */
  function ParseDecimal(s: string): Option<int> {
    if |s| > 1 && s[0] == '-' && AllDigits(s[1..]) then Some(0 - DigitsValue(s[1..]) as int)
    else if |s| > 0 && AllDigits(s) then Some(DigitsValue(s))
    else None
  }

  /** LLSD::asInteger. */
  function AsInteger(v: Value): int32 {
    match v
    case Boolean(b) => if b then 1 else 0
    case Integer(i) => i
    case Str(s) =>
      (match ParseDecimal(s)
       case Some(n) => if -0x8000_0000 <= n < 0x8000_0000 then n as int32 else 0
       case None => 0)
    case _ => 0
  }

  /** LLSD::asUUID: a string that does not parse gives the null id. */
  function AsUuid(v: Value): Uuid {
    match v
    case UuidValue(u) => u
    case Str(s) =>
      (match ParseUuid(s)
       case Some(u) => u
       case None => NullUuid)
    case _ => NullUuid
  }
}
