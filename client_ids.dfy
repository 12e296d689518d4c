/**
  Client identifiers of the live-update service: `client_<counter>_<timestamp>`,
  the counter and the millisecond clock written in decimal. The parser shows that
  the counter can be read back from an id, so ids with distinct counters differ.
*/
module ClientIds {
  import opened Wrappers

  predicate IsDigit(c: char)
  {
    '0' <= c <= '9'
  }

  predicate AllDigits(s: string)
  {
    forall i :: 0 <= i < |s| ==> IsDigit(s[i])
  }

  function DigitChar(d: nat): (c: char)
    requires d < 10
    ensures IsDigit(c) && c as int - '0' as int == d
  {
    ('0' as int + d) as char
  }

  /** Decimal notation of `n`, as a template literal interpolates a non-negative integer. */
  function Decimal(n: nat): (s: string)
    ensures |s| >= 1 && AllDigits(s)
  {
    if n < 10 then [DigitChar(n)] else Decimal(n / 10) + [DigitChar(n % 10)]
  }

  /** The number a non-empty run of digits denotes. */
  function DecimalValue(s: string): nat
    requires AllDigits(s)
  {
    if s == [] then 0 else DecimalValue(s[..|s| - 1]) * 10 + (s[|s| - 1] as int - '0' as int)
  }

  function ParseDecimal(s: string): Option<nat>
  {
    if |s| >= 1 && AllDigits(s) then Some(DecimalValue(s)) else None
  }

  lemma {:induction false} ParseDecimalRoundTrip(n: nat)
    ensures ParseDecimal(Decimal(n)) == Some(n)
  {
    if n >= 10 {
      ParseDecimalRoundTrip(n / 10);
      var s := Decimal(n);
      assert s[..|s| - 1] == Decimal(n / 10);
      assert s[|s| - 1] == DigitChar(n % 10);
      assert DecimalValue(s) == (n / 10) * 10 + n % 10;
    }
  }

  /** Position of the first `c` in `s`, or `|s|` when there is none. */
  function IndexOf(s: string, c: char): (k: nat)
    ensures k <= |s|
    ensures k < |s| ==> s[k] == c
    ensures forall i :: 0 <= i < k ==> s[i] != c
  {
    if s == [] then 0 else if s[0] == c then 0 else 1 + IndexOf(s[1..], c)
  }

  const IdPrefix: string := "client_"

  /** The id `addClient` gives its `serial`-th client, created at clock reading `stamp`. */
  function FormatId(serial: nat, stamp: nat): string
  {
    IdPrefix + Decimal(serial) + "_" + Decimal(stamp)
  }

  datatype IdParts = IdParts(serial: nat, stamp: nat)

  /** The counter and the timestamp an id was made from, if it is such an id. */
  function ParseId(id: string): Option<IdParts>
  {
    if |id| >= |IdPrefix| && id[..|IdPrefix|] == IdPrefix then
      var rest := id[|IdPrefix|..];
      var k := IndexOf(rest, '_');
      if k < |rest| then
        match (ParseDecimal(rest[..k]), ParseDecimal(rest[k + 1..]))
        case (Some(a), Some(b)) => Some(IdParts(a, b))
        case _ => None
      else None
    else None
  }

  /** Both components of an id are recovered from it. */
  lemma ParseFormatId(serial: nat, stamp: nat)
    ensures ParseId(FormatId(serial, stamp)) == Some(IdParts(serial, stamp))
  {
    var id := FormatId(serial, stamp);
    var a, b := Decimal(serial), Decimal(stamp);
    var rest := id[|IdPrefix|..];
    assert id[..|IdPrefix|] == IdPrefix;
    assert rest == a + "_" + b;
    assert !IsDigit('_');
    assert rest[|a|] == '_';
    assert IndexOf(rest, '_') == |a|;
    assert rest[..|a|] == a;
    assert rest[|a| + 1..] == b;
    ParseDecimalRoundTrip(serial);
    ParseDecimalRoundTrip(stamp);
  }

  /** Ids made from distinct counters are distinct, whatever the clock said. */
  lemma FormatIdInjective(serial1: nat, stamp1: nat, serial2: nat, stamp2: nat)
    ensures FormatId(serial1, stamp1) == FormatId(serial2, stamp2) <==> serial1 == serial2 && stamp1 == stamp2
  {
    ParseFormatId(serial1, stamp1);
    ParseFormatId(serial2, stamp2);
  }
}
