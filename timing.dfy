/** The millisecond-to-rate converter behind the timed envelope setters
    (_timeConvert, src/BuzzKill.cpp:403-409). */
module Timing {

  /** A hardware rate setting: one of four ranges and a value within it. */
  datatype Rate = Rate(range: nat, value: nat)

  /** A duration's rate setting. The input is a 16-bit word. Four linear
      segments, one per range, start at 0, 123, 490 and 1478 ms, and 5000 ms
      and up saturate at range 3, value 15. */
  function TimeConvert(time: nat): (r: Rate)
    requires time < 0x1_0000
    ensures r.range <= 3 && r.value <= 15
    ensures time >= 5000 ==> r == Rate(3, 15)
    ensures r.range == (if time < 123 then 0 else if time < 490 then 1 else if time < 1478 then 2 else 3)
  {
    if time >= 5000 then Rate(3, 15)
    else if time >= 1478 then Rate(3, (time - 1478) / 231)
    else if time >= 490 then Rate(2, (time - 490) / 62)
    else if time >= 123 then Rate(1, (time - 123) / 23)
    else Rate(0, (time + 1) / 8)
  }

  /** Lexicographic order on rate settings: a longer duration never gets a
      faster setting. */
  predicate NotAfter(a: Rate, b: Rate)
  {
    a.range < b.range || (a.range == b.range && a.value <= b.value)
  }

  /** The converter is monotone: (range, value) never decreases as the time grows. */
  lemma TimeConvertMonotone(t1: nat, t2: nat)
    requires t1 <= t2 < 0x1_0000
    ensures NotAfter(TimeConvert(t1), TimeConvert(t2))
  {
  }

  /** The boundary values of the rate table. */
  lemma TimeConvertBoundaries()
    ensures TimeConvert(0) == Rate(0, 0)
    ensures TimeConvert(122) == Rate(0, 15)
    ensures TimeConvert(123) == Rate(1, 0)
    ensures TimeConvert(489) == Rate(1, 15)
    ensures TimeConvert(490) == Rate(2, 0)
    ensures TimeConvert(1477) == Rate(2, 15)
    ensures TimeConvert(1478) == Rate(3, 0)
    ensures TimeConvert(4999) == Rate(3, 15)
    ensures TimeConvert(5000) == Rate(3, 15)
    ensures TimeConvert(0xFFFF) == Rate(3, 15)
  {
  }
}
