/** A setpoint written to Home Assistant and read back. */
module Setpoint {
  /** `result` is `x` rounded to one decimal: a nearest tenth, either one on a tie. */
  ghost predicate Rounded(x: real, result: real) {
    Tenths(result) && x - 0.05 <= result <= x + 0.05
  }

  function Tenth(n: int): real {
    n as real / 10.0
  }

  ghost predicate Tenths(r: real) {
    exists n :: r == Tenth(n)
  }

  /** Some tenth is that near, and what is that near is a nearest tenth. */
  lemma RoundedIsNearest(x: real, result: real) returns (some: real)
    ensures Rounded(x, some)
    ensures Rounded(x, result) <==>
      Tenths(result) && forall n: int :: Distance(x, result) <= Distance(x, Tenth(n))
  {
    var k := (10.0 * x + 0.5).Floor;
    some := Tenth(k);
    assert k as real <= 10.0 * x + 0.5 < k as real + 1.0;
    if Tenths(result) {
      var m :| result == Tenth(m);
      if Rounded(x, result) {
        forall n: int ensures Distance(x, result) <= Distance(x, Tenth(n)) {
          assert n < m ==> Tenth(n) <= result - 0.1;
          assert n > m ==> Tenth(n) >= result + 0.1;
        }
      } else {
        assert Distance(x, some) <= 0.05 < Distance(x, result);
      }
    }
  }

  function Distance(x: real, y: real): real {
    if x < y then y - x else x - y
  }

  /** `_to_celsius`. */
  function ToCelsius(value: real, fahrenheit: bool): real {
    if fahrenheit then (value - 32.0) * 5.0 / 9.0 else value
  }

  /** What `set_setpoint` rounds and sends. */
  function FromCelsius(celsius: real, fahrenheit: bool): real {
    if fahrenheit then celsius * 9.0 / 5.0 + 32.0 else celsius
  }

  lemma SameTenths(x: real, y: real)
    requires Tenths(x) && Tenths(y) && x - y < 0.1 && y - x < 0.1
    ensures x == y
  {
    var m :| x == Tenth(m);
    var n :| y == Tenth(n);
    assert x - y == Tenth(m - n);
    assert (m - n) as real < 1.0 && (n - m) as real < 1.0;
  }

  /** What is read back differs from what was written by at most a twentieth of a degree
      Celsius, and by at most 1/36 where the thermostat works in Fahrenheit. */
  lemma ReadBack(celsius: real, fahrenheit: bool, sent: real)
    requires Rounded(FromCelsius(celsius, fahrenheit), sent)
    ensures var bound := if fahrenheit then 1.0 / 36.0 else 0.05;
      -bound <= ToCelsius(sent, fahrenheit) - celsius <= bound
  {
    hide Tenths;
  }

  /** Writing back what was read sends the very same number: setpoints do not drift. */
  lemma NoDrift(celsius: real, fahrenheit: bool, sent: real, again: real)
    requires Rounded(FromCelsius(celsius, fahrenheit), sent)
    requires Rounded(FromCelsius(ToCelsius(sent, fahrenheit), fahrenheit), again)
    ensures again == sent
  {
    assert FromCelsius(ToCelsius(sent, fahrenheit), fahrenheit) == sent;
    SameTenths(sent, again);
  }

  /** A warmer setpoint is never sent as a colder one. */
  lemma KeepsOrder(cooler: real, warmer: real, fahrenheit: bool, sentCooler: real, sentWarmer: real)
    requires cooler < warmer
    requires Rounded(FromCelsius(cooler, fahrenheit), sentCooler)
    requires Rounded(FromCelsius(warmer, fahrenheit), sentWarmer)
    ensures sentCooler <= sentWarmer
  {
    assert FromCelsius(cooler, fahrenheit) < FromCelsius(warmer, fahrenheit);
    if sentCooler > sentWarmer {
      SameTenths(sentCooler, sentWarmer);
    }
  }
}
