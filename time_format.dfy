/** The sleep timer's "MM:SS" rendering of a remaining time in milliseconds. */
module TimeFormat {

  predicate IsDigit(c: char) {
    '0' <= c <= '9'
  }

  predicate IsDigits(s: string) {
    forall i :: 0 <= i < |s| ==> IsDigit(s[i])
  }

  function DigitChar(d: nat): (c: char)
    requires d < 10
    ensures IsDigit(c)
  {
    ('0' as int + d) as char
  }

  function DigitValue(c: char): (d: nat)
    requires IsDigit(c)
    ensures d < 10
  {
    c as int - '0' as int
  }

  /** Decimal representation without leading zeros, as `%d` prints a non-negative number. */
  function Decimal(n: nat): (s: string)
    ensures |s| >= 1 && IsDigits(s)
    ensures n < 10 <==> |s| == 1
    ensures n < 100 ==> |s| <= 2
    decreases n
  {
    if n < 10 then [DigitChar(n)] else Decimal(n / 10) + [DigitChar(n % 10)]
  }

  /** The number a string of decimal digits denotes. */
  function DecimalValue(s: string): nat
    requires IsDigits(s)
  {
    if s == [] then 0 else DecimalValue(s[..|s| - 1]) * 10 + DigitValue(s[|s| - 1])
  }

  /** Reading back a printed number gives the number. */
  lemma {:induction false} DecimalRoundTrip(n: nat)
    ensures DecimalValue(Decimal(n)) == n
    decreases n
  {
    if n >= 10 {
      DecimalRoundTrip(n / 10);
      var s := Decimal(n);
      assert s[..|s| - 1] == Decimal(n / 10);
    }
  }

  /** Leading zeros do not change the value. */
  lemma {:induction false} LeadingZero(s: string)
    requires IsDigits(s)
    ensures DecimalValue("0" + s) == DecimalValue(s)
    decreases |s|
  {
    if s != [] {
      var t := "0" + s;
      assert t[..|t| - 1] == "0" + s[..|s| - 1];
      LeadingZero(s[..|s| - 1]);
    }
  }

  /** `%02d`: at least two digits, zero-padded on the left. */
  function Pad2(n: nat): (s: string)
    ensures IsDigits(s) && |s| >= 2
    ensures n < 100 ==> |s| == 2
    ensures DecimalValue(s) == n
  {
    DecimalRoundTrip(n);
    if n < 10 then (LeadingZero(Decimal(n)); "0" + Decimal(n)) else Decimal(n)
  }

  /** Java's `TimeUnit` split of a millisecond count: whole seconds left over after the whole minutes. */
  lemma SecondsOfMinute(ms: nat)
    ensures ms / 1000 - 60 * (ms / 60000) == (ms / 1000) % 60
  {
    var sec := ms / 1000;
    assert ms == sec * 1000 + ms % 1000;
    assert sec == (sec / 60) * 60 + sec % 60;
    assert ms == (sec / 60) * 60000 + (sec % 60) * 1000 + ms % 1000;
    assert 0 <= (sec % 60) * 1000 + ms % 1000 < 60000;
    assert ms / 60000 == sec / 60;
  }

  /**
   * `getReadableTime`: whole minutes, a colon, and the seconds within the minute, each printed with
   * at least two digits. Reading the text back yields `ms / 60000` and `(ms / 1000) % 60`.
   */
  function ReadableTime(ms: int): (s: string)
    requires ms >= 0
    ensures |s| >= 5 && s[|s| - 3] == ':'
    ensures ms / 60000 < 100 ==> |s| == 5
    ensures IsDigits(s[..|s| - 3]) && DecimalValue(s[..|s| - 3]) == ms / 60000
    ensures IsDigits(s[|s| - 2..]) && DecimalValue(s[|s| - 2..]) == (ms / 1000) % 60
  {
    var minutes := ms / 60000;
    var seconds := ms / 1000 - 60 * minutes;
    SecondsOfMinute(ms);
    var m := Pad2(minutes);
    var r := m + ":" + Pad2(seconds);
    assert r[..|r| - 3] == m;
    assert r[|r| - 2..] == Pad2(seconds);
    r
  }

  /** The sleep timer's fixed 15-minute duration, 900000 ms, reads "15:00". */
  lemma FifteenMinutes()
    ensures ReadableTime(900000) == "15:00"
  {
    assert Decimal(15) == "15" by {
      assert Decimal(1) == "1";
    }
    assert Pad2(0) == "00";
  }
}
