/**
  The `m:ss` display of a TimeSpan, as `ThisAddIn.GetElapsedTime` builds it,
  and a parser used to state what the display means.
 */
module TimeFormat {
  import opened Wrappers

  /** TimeSpan ticks per second (one tick is 100 ns). */
  const TicksPerSecond: nat := 10_000_000

  /** The whole seconds of a span: the seconds it has fully run, the rest dropped. */
  function WholeSeconds(ticks: nat): (s: nat)
    ensures s * TicksPerSecond <= ticks < (s + 1) * TicksPerSecond
  {
    ticks / TicksPerSecond
  }

  /** `Math.Truncate(TotalMinutes)` for a non-negative span: the minutes it has fully run. */
  function TotalMinutes(ticks: nat): (m: nat)
    ensures m * 60 <= WholeSeconds(ticks) < (m + 1) * 60
    ensures m * 60 * TicksPerSecond <= ticks < (m + 1) * 60 * TicksPerSecond
  {
    WholeSeconds(ticks) / 60
  }

  /** `TimeSpan.Minutes`: the minutes left over once whole hours are taken out. */
  function MinutesComponent(ticks: nat): (c: nat)
    ensures c < 60 && c <= TotalMinutes(ticks)
    ensures (TotalMinutes(ticks) - c) % 60 == 0
    ensures c == 0 <==> TotalMinutes(ticks) % 60 == 0
  {
    TotalMinutes(ticks) % 60
  }

  /** `TimeSpan.Seconds`: the seconds left over once whole minutes are taken out. */
  function SecondsComponent(ticks: nat): (c: nat)
    ensures c < 60
    ensures WholeSeconds(ticks) == 60 * TotalMinutes(ticks) + c
  {
    WholeSeconds(ticks) % 60
  }

  predicate IsDigit(c: char) { '0' <= c <= '9' }

  predicate AllDigits(s: string) { forall i :: 0 <= i < |s| ==> IsDigit(s[i]) }

  function DigitValue(c: char): nat
    requires IsDigit(c)
  {
    c as int - '0' as int
  }

  function Digit(d: nat): (c: char)
    requires d < 10
    ensures IsDigit(c) && DigitValue(c) == d
  {
    ('0' as int + d) as char
  }

  /** Decimal rendering without leading zeros (`ToString()` of a whole number). */
  function NatToString(n: nat): (s: string)
    ensures |s| >= 1 && AllDigits(s)
    ensures s[0] == '0' ==> n == 0
    decreases n
  {
    if n < 10 then [Digit(n)] else NatToString(n / 10) + [Digit(n % 10)]
  }

  /** The value of a string of decimal digits. */
  function ParseDigits(s: string): nat
    requires AllDigits(s)
    decreases |s|
  {
    if |s| == 0 then 0 else 10 * ParseDigits(s[..|s| - 1]) + DigitValue(s[|s| - 1])
  }

  /** Reading back a rendered number gives the number. */
  lemma {:induction false} ParseNatToString(n: nat)
    ensures ParseDigits(NatToString(n)) == n
    decreases n
  {
    var s := NatToString(n);
    if n >= 10 {
      ParseNatToString(n / 10);
      assert s[..|s| - 1] == NatToString(n / 10);
    }
  }

  /** The custom format "ss": always two digits. */
  function TwoDigits(n: nat): (s: string)
    requires n < 100
    ensures |s| == 2 && AllDigits(s) && ParseDigits(s) == n
  {
    var s := [Digit(n / 10), Digit(n % 10)];
    assert s[..1] == [Digit(n / 10)] && s[..1][..0] == [];
    assert ParseDigits(s[..1]) == n / 10;
    s
  }

  /** The two numbers a display shows. */
  datatype Display = Display(minutes: nat, seconds: nat)

  /** Reads back `<digits>:<two digits>`; anything else is rejected. */
  function ParseDisplay(s: string): Option<Display> {
    if |s| >= 4 && s[|s| - 3] == ':' && AllDigits(s[..|s| - 3]) && AllDigits(s[|s| - 2..]) then
      Some(Display(ParseDigits(s[..|s| - 3]), ParseDigits(s[|s| - 2..])))
    else
      None
  }

  /** Reading back `m + ":" + ss` for a digit string `m` and a two-digit `ss`. */
  lemma ParseJoined(m: string, ss: string)
    requires |m| >= 1 && AllDigits(m) && |ss| == 2 && AllDigits(ss)
    ensures ParseDisplay(m + ":" + ss) == Some(Display(ParseDigits(m), ParseDigits(ss)))
  {
    var s := m + ":" + ss;
    assert s[..|s| - 3] == m;
    assert s[|s| - 2..] == ss;
  }

  /**
    The display as `GetElapsedTime` writes it: the minutes field is guarded by
    the minutes component, so it shows the total minutes only when that
    component is non-zero. The minutes field never has a leading zero.
   */
  function FormatAsWritten(ticks: nat): (s: string)
    ensures ParseDisplay(s) ==
      Some(Display(if MinutesComponent(ticks) > 0 then TotalMinutes(ticks) else 0, SecondsComponent(ticks)))
    ensures s[0] == '0' ==> s[1] == ':'
  {
    var m := if MinutesComponent(ticks) > 0 then NatToString(TotalMinutes(ticks)) else "0";
    ParseNatToString(TotalMinutes(ticks));
    assert ParseDigits("0") == 0 by {
      assert "0"[..0] == [];
    }
    ParseJoined(m, TwoDigits(SecondsComponent(ticks)));
    m + ":" + TwoDigits(SecondsComponent(ticks))
  }

  /**
    The display as evidently intended: it reads back as the truncated total
    minutes and the seconds component, with no leading zero in the minutes.
   */
  function Format(ticks: nat): (s: string)
    ensures ParseDisplay(s) == Some(Display(TotalMinutes(ticks), SecondsComponent(ticks)))
    ensures s[0] == '0' ==> s[1] == ':'
  {
    ParseNatToString(TotalMinutes(ticks));
    ParseJoined(NatToString(TotalMinutes(ticks)), TwoDigits(SecondsComponent(ticks)));
    NatToString(TotalMinutes(ticks)) + ":" + TwoDigits(SecondsComponent(ticks))
  }

  /** Two spans display alike exactly when they have the same number of whole seconds. */
  lemma FormatDeterminesWholeSeconds(a: nat, b: nat)
    ensures Format(a) == Format(b) <==> WholeSeconds(a) == WholeSeconds(b)
  {
    if Format(a) == Format(b) {
      assert TotalMinutes(a) == TotalMinutes(b) && SecondsComponent(a) == SecondsComponent(b) by {
        assert ParseDisplay(Format(a)) == ParseDisplay(Format(b));
      }
    }
  }

  /**
    The display as written agrees with the corrected one except when the total
    minutes are a positive multiple of 60.
   */
  lemma AsWrittenAgreesWithFormat(ticks: nat)
    ensures FormatAsWritten(ticks) == Format(ticks) <==> (MinutesComponent(ticks) > 0 || TotalMinutes(ticks) == 0)
  {
    if TotalMinutes(ticks) == 0 {
      assert NatToString(0) == "0";
    }
  }

  /** 309 seconds display as "5:09" either way. */
  lemma FiveMinutesNineSeconds()
    ensures Format(309 * TicksPerSecond) == "5:09"
    ensures FormatAsWritten(309 * TicksPerSecond) == "5:09"
  {
  }

  /** One hour displays as "0:00" as written, where "60:00" is meant. */
  lemma OneHourShowsZeroAsWritten()
    ensures FormatAsWritten(3600 * TicksPerSecond) == "0:00"
    ensures Format(3600 * TicksPerSecond) == "60:00"
    ensures FormatAsWritten(3600 * TicksPerSecond) == FormatAsWritten(0)
  {
  }
}
