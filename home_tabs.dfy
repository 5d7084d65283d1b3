/** The logic inside the home screen's tabs: the uptime text of the dashboard, the logs tab's
    list of the 2000 most recent lines, and the import tab's link field, its enable rule and
    its saved/failed flag. Layout and rendering are not modelled. */
module HomeTabs {
  import opened Wrappers
  import opened Text
  import opened JvmInt
  import opened Windows
  import VlessLinkParser

  // ------------------------------------------------------------------------------------------
  // uptimeText
  // ------------------------------------------------------------------------------------------

  /** The whole seconds between `startTimeMs` and `nowMs` as `uptimeText` computes them: a
      `Long` difference, Kotlin's truncating division by 1000, then `toInt()`. */
  function ElapsedSeconds(startTimeMs: int, nowMs: int): (sec: int)
    requires IsLong(startTimeMs) && IsLong(nowMs)
    ensures IsInt(sec)
  {
    ToInt(Quot(ToLong(nowMs - startTimeMs), 1000))
  }

  datatype Hms = Hms(hours: int, minutes: int, seconds: int)

  /** `h = sec / 3600`, `m = (sec % 3600) / 60`, `s = sec % 60`, all truncating. */
  function Clock(sec: int): Hms
  {
    Hms(Quot(sec, 3600), Quot(Rem(sec, 3600), 60), Rem(sec, 60))
  }

  /** The seconds an `h:m:s` reading stands for. */
  function TotalSeconds(c: Hms): int
  {
    c.hours * 3600 + c.minutes * 60 + c.seconds
  }

  /** `"%02d".format(n)`: zero-padded to two characters; a negative number is a minus sign
      followed by its digits. */
  function Pad2(n: int): (s: string)
    ensures |s| >= 2
    ensures 0 <= n < 100 ==> |s| == 2
  {
    if n < 0 then "-" + NatToString(-n)
    else if n < 10 then "0" + NatToString(n)
    else
      assert n < 100 ==> NatToString(n) == NatToString(n / 10) + [DigitChar(n % 10)] && n / 10 < 10;
      NatToString(n)
  }

  /** `uptimeText(startTimeMs)` with the clock reading `nowMs`: `"0s"` exactly when no start
      time has been published, `hh:mm:ss` otherwise. */
  function UptimeText(startTimeMs: int, nowMs: int): (r: string)
    requires IsLong(startTimeMs) && IsLong(nowMs)
    ensures r == "0s" <==> startTimeMs <= 0
    ensures startTimeMs > 0 ==> |r| >= 8
  {
    if startTimeMs <= 0 then "0s"
    else
      ClockText(Clock(ElapsedSeconds(startTimeMs, nowMs)))
  }

  /** `"%02d:%02d:%02d".format(h, m, s)`. */
  function ClockText(c: Hms): (r: string)
    ensures |r| >= 8
  {
    Pad2(c.hours) + ":" + Pad2(c.minutes) + ":" + Pad2(c.seconds)
  }

  /** Reads an `h:m:s` text of decimal fields back into seconds. */
  function ReadClock(text: string): Option<int>
  {
    ReadFields(Split(text, ':'))
  }

  function ReadFields(parts: seq<string>): Option<int>
  {
    if |parts| == 3 && AllDigits(parts[0]) && AllDigits(parts[1]) && AllDigits(parts[2])
    then Some(TotalSeconds(Hms(DigitsValue(parts[0]), DigitsValue(parts[1]), DigitsValue(parts[2]))))
    else None
  }

  lemma DivModUnique(a: int, b: int, q: int, r: int)
    requires b > 0 && 0 <= r < b && a == b * q + r
    ensures a / b == q && a % b == r
  {
    var d := q - a / b;
    assert b * d == a % b - r;
  }

  lemma {:induction false} ClockOfNatural(sec: int)
    requires sec >= 0
    ensures var c := Clock(sec);
            TotalSeconds(c) == sec
            && c.hours >= 0 && 0 <= c.minutes < 60 && 0 <= c.seconds < 60
  {
    var q, r := sec / 3600, sec % 3600;
    assert sec == 3600 * q + r;
    DivModUnique(sec, 60, 60 * q + r / 60, r % 60);
  }

  /** The three fields put the seconds back together, and each field has the sign of the
      seconds; minutes and seconds stay below 60 in size. */
  lemma ClockParts(sec: int)
    ensures var c := Clock(sec);
            TotalSeconds(c) == sec
            && (sec >= 0 ==> c.hours >= 0 && 0 <= c.minutes < 60 && 0 <= c.seconds < 60)
            && (sec < 0 ==> c.hours <= 0 && -60 < c.minutes <= 0 && -60 < c.seconds <= 0)
  {
    if sec >= 0 {
      ClockOfNatural(sec);
    } else {
      ClockOfNegative(sec);
    }
  }

  /** A negative count gives the fields of its opposite, negated. */
  lemma ClockOfNegative(sec: int)
    requires sec < 0
    ensures var c := Clock(sec);
            TotalSeconds(c) == sec
            && c.hours <= 0 && -60 < c.minutes <= 0 && -60 < c.seconds <= 0
  {
    var p := Clock(-sec);
    ClockOfNatural(-sec);
    QuotRemNegate(-sec, 3600);
    QuotRemNegate(Rem(-sec, 3600), 60);
    QuotRemNegate(-sec, 60);
    assert Clock(sec) == Hms(-p.hours, -p.minutes, -p.seconds);
  }

  /** A field of a natural number reads back as that number. */
  lemma PadDigits(n: int)
    requires n >= 0
    ensures AllDigits(Pad2(n)) && DigitsValue(Pad2(n)) == n && ':' !in Pad2(n)
  {
    DigitsValueNatToString(n);
    if n < 10 {
      DigitsValueLeadingZero(NatToString(n));
    }
    var p := Pad2(n);
    assert forall i :: 0 <= i < |p| ==> p[i] != ':';
  }

  /** Three digit fields joined by `:` read back as hours, minutes and seconds. */
  lemma ReadClockFields(a: string, b: string, c: string, t: Hms)
    requires AllDigits(a) && AllDigits(b) && AllDigits(c)
    requires ':' !in a && ':' !in b && ':' !in c
    requires t == Hms(DigitsValue(a), DigitsValue(b), DigitsValue(c))
    ensures ReadClock(a + ":" + b + ":" + c) == Some(TotalSeconds(t))
  {
    SplitThree(a, b, c, ':');
    ReadFieldsOf(a, b, c, t);
  }

  lemma ReadFieldsOf(a: string, b: string, c: string, t: Hms)
    requires AllDigits(a) && AllDigits(b) && AllDigits(c)
    requires t == Hms(DigitsValue(a), DigitsValue(b), DigitsValue(c))
    ensures ReadFields([a, b, c]) == Some(TotalSeconds(t))
  {
    var parts := [a, b, c];
    assert parts[0] == a && parts[1] == b && parts[2] == c;
  }

  /** Reading the uptime text back gives the elapsed seconds, whenever those are not negative. */
  lemma UptimeReadsBack(startTimeMs: int, nowMs: int)
    requires IsLong(startTimeMs) && IsLong(nowMs) && startTimeMs > 0
    requires ElapsedSeconds(startTimeMs, nowMs) >= 0
    ensures ReadClock(UptimeText(startTimeMs, nowMs)) == Some(ElapsedSeconds(startTimeMs, nowMs))
  {
    var sec := ElapsedSeconds(startTimeMs, nowMs);
    ClockParts(sec);
    ClockTextReadsBack(Clock(sec));
  }

  /** Zero-padded fields of natural numbers read back as those numbers. */
  lemma ClockTextReadsBack(t: Hms)
    requires t.hours >= 0 && t.minutes >= 0 && t.seconds >= 0
    ensures ReadClock(ClockText(t)) == Some(TotalSeconds(t))
  {
    PadDigits(t.hours);
    PadDigits(t.minutes);
    PadDigits(t.seconds);
    ReadClockFields(Pad2(t.hours), Pad2(t.minutes), Pad2(t.seconds), t);
  }

  /** Between a positive start time and a later clock reading less than 2^31 seconds on, the
      text shows the true whole seconds elapsed. */
  lemma ElapsedExact(startTimeMs: int, nowMs: int)
    requires 0 < startTimeMs <= nowMs <= LongMax
    requires (nowMs - startTimeMs) / 1000 <= IntMax
    ensures ElapsedSeconds(startTimeMs, nowMs) == (nowMs - startTimeMs) / 1000
  {
  }

  // ------------------------------------------------------------------------------------------
  // LogsTab
  // ------------------------------------------------------------------------------------------

  /** `LogsTab`'s cap on its line list. */
  const LogLimit := 2000

  class LogsTab {
    /** The state list the tab shows, oldest first. */
    var logs: seq<string>
    /** Every line collected from the bus since the tab was composed. */
    ghost var received: seq<string>

    /** The list is the last 2000 lines received, in arrival order. */
    ghost predicate Valid()
      reads this
    {
      logs == LastN(received, LogLimit)
    }

    constructor ()
      ensures Valid() && logs == [] && received == []
    {
      logs := [];
      received := [];
    }

    /** One collected line: `logs.add(line)`, then `removeFirst()` when the list is over 2000. */
    method Collect(line: string)
      requires Valid()
      modifies this
      ensures Valid()
      ensures received == old(received) + [line]
      ensures logs == Push(old(logs), line, LogLimit)
    {
      PushLastN(received, line, LogLimit);
      logs := logs + [line];
      if |logs| > LogLimit {
        logs := logs[1..];
      }
      received := received + [line];
    }
  }

  // ------------------------------------------------------------------------------------------
  // ImportTab
  // ------------------------------------------------------------------------------------------

  /** The import button is enabled exactly for text that starts with `vless://`. */
  predicate ImportEnabled(link: string)
  {
    StartsWith(link, "vless://")
  }

  class ImportTab {
    /** The text field's value. */
    var link: string
    /** The outcome of the last import: `None` until one is made, and again after an edit. */
    var saved: Option<bool>

    constructor ()
      ensures link == "" && saved == None
    {
      link := "";
      saved := None;
    }

    /** `onValueChange`: the field takes the new text and the outcome is cleared. */
    method OnValueChange(text: string)
      modifies this
      ensures link == text && saved == None
    {
      link := text;
      saved := None;
    }

    /** A press of the import button; `imported` is what the `onImport` callback returns.
        A disabled button ignores the press. */
    method OnImportClick(imported: bool)
      modifies this
      ensures link == old(link)
      ensures saved == if ImportEnabled(old(link)) then Some(imported) else old(saved)
    {
      if ImportEnabled(link) {
        saved := Some(imported);
      }
    }
  }

  /** Every link the parser accepts can be imported. */
  lemma ParsableLinksEnabled(link: string)
    requires VlessLinkParser.Parse(link).Success?
    ensures ImportEnabled(link)
  {
  }

  /** The enable rule is weaker than the parser: the bare prefix enables the button and
      still fails to parse. */
  lemma EnabledLinkMayFail()
    ensures ImportEnabled("vless://") && VlessLinkParser.Parse("vless://").Failure?
  {
    VlessLinkParser.NoUserInfoFails("", "");
    assert "vless://" + "" + "" == "vless://";
  }
}
