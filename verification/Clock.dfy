/** A span of less than a day as the text of a time of day, as `time.isoformat` writes it:
    `HH:MM:SS`, with six digits of microseconds unless they are zero. */
module Clock {
  import opened Sequences

  const MICROSECONDS_PER_DAY := 86_400_000_000

  /** The last `width` digits of `n`. */
  function Padded(n: nat, width: nat): (s: string)
    ensures |s| == width
  {
    if width == 0 then "" else Padded(n / 10, width - 1) + [Digit(n % 10)]
  }

  function ClockText(microseconds: nat): string {
    var seconds, fraction := microseconds / 1_000_000, microseconds % 1_000_000;
    Padded(seconds / 3600, 2) + ":" + Padded(seconds / 60 % 60, 2) + ":" + Padded(seconds % 60, 2)
    + if fraction == 0 then "" else "." + Padded(fraction, 6)
  }

  // ----- Reading it back

  function DigitValue(c: char): nat {
    if IsDigit(c) then (c - '0') as nat else 0
  }

  function NumberOf(s: string): nat {
    if s == "" then 0 else NumberOf(s[..|s| - 1]) * 10 + DigitValue(s[|s| - 1])
  }

  function Power(width: nat): nat {
    if width == 0 then 1 else 10 * Power(width - 1)
  }

  function ReadClock(text: string): nat
    requires |text| == 8 || |text| == 15
  {
    var seconds := NumberOf(text[..2]) * 3600 + NumberOf(text[3..5]) * 60 + NumberOf(text[6..8]);
    seconds * 1_000_000 + if |text| == 8 then 0 else NumberOf(text[9..])
  }

  lemma {:induction false} PaddedNumber(n: nat, width: nat)
    requires n < Power(width)
    ensures NumberOf(Padded(n, width)) == n
  {
    if width > 0 {
      var s := Padded(n, width);
      PaddedNumber(n / 10, width - 1);
      assert s[..|s| - 1] == Padded(n / 10, width - 1) && s[|s| - 1] == Digit(n % 10);
      assert DigitValue(Digit(n % 10)) == n % 10;
    }
  }

  lemma ClockParts(microseconds: nat)
    ensures var text, seconds := ClockText(microseconds), microseconds / 1_000_000;
      && (|text| == 8 <==> microseconds % 1_000_000 == 0) && (|text| == 8 || |text| == 15)
      && text[..2] == Padded(seconds / 3600, 2) && text[3..5] == Padded(seconds / 60 % 60, 2)
      && text[6..8] == Padded(seconds % 60, 2)
      && (|text| == 15 ==> text[9..] == Padded(microseconds % 1_000_000, 6))
  {
  }

  lemma Powers()
    ensures Power(2) == 100 && Power(6) == 1_000_000
  {
    assert Power(1) == 10 && Power(2) == 100 && Power(3) == 1000 && Power(4) == 10_000 && Power(5) == 100_000;
  }

  lemma HoursMinutesSeconds(seconds: nat)
    ensures seconds / 3600 * 3600 + seconds / 60 % 60 * 60 + seconds % 60 == seconds
  {
    assert seconds / 60 / 60 == seconds / 3600;
  }

  /** The text of a time of day says which it is, to the microsecond. */
  lemma ClockRoundTrip(microseconds: nat)
    requires microseconds < MICROSECONDS_PER_DAY
    ensures |ClockText(microseconds)| == 8 || |ClockText(microseconds)| == 15
    ensures ReadClock(ClockText(microseconds)) == microseconds
  {
    var seconds := microseconds / 1_000_000;
    ClockParts(microseconds);
    Powers();
    PaddedNumber(seconds / 3600, 2);
    PaddedNumber(seconds / 60 % 60, 2);
    PaddedNumber(seconds % 60, 2);
    PaddedNumber(microseconds % 1_000_000, 6);
    HoursMinutesSeconds(seconds);
  }
}
