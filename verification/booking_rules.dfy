/** Booking and demand rules of the client: the deposit tier for a party size,
    the demand level of a percentage, the suggested ("top") demand window and the
    alert it raises, the activity-type normaliser, the 5-minute rounding of
    timestamps and the `+1h` / `+2h` end-time helper. */
module BookingRules {
  import opened JsText

  // ---------------------------------------------------------------- deposit

  /** Deposit (EUR) held for a reservation of `size` people. */
  function DepositForParty(size: int): (d: int)
    ensures d == 5 || d == 10 || d == 15 || d == 20
    ensures d == 20 <==> size >= 10
    ensures d == 15 <==> 7 <= size < 10
    ensures d == 10 <==> 4 <= size < 7
    ensures d == 5 <==> size < 4
  {
    if size >= 10 then 20
    else if size >= 7 then 15
    else if size >= 4 then 10
    else 5
  }

  /** A larger party never pays a smaller deposit, and no deposit exceeds four
      times the smallest one. */
  lemma DepositMonotone(a: int, b: int)
    requires a <= b
    ensures DepositForParty(a) <= DepositForParty(b)
    ensures DepositForParty(b) <= 4 * DepositForParty(a)
  {
  }

  // ---------------------------------------------------------------- demand level

  datatype Level = Low | Medium | High

  function Rank(l: Level): nat
  {
    match l
    case Low => 0
    case Medium => 1
    case High => 2
  }

  function DemandLevelFromPercent(pct: real): (l: Level)
    ensures l == High <==> pct >= 70.0
    ensures l == Medium <==> 40.0 <= pct < 70.0
    ensures l == Low <==> pct < 40.0
  {
    if pct >= 70.0 then High
    else if pct >= 40.0 then Medium
    else Low
  }

  /** More demand never yields a lower level. */
  lemma DemandLevelMonotone(p: real, q: real)
    requires p <= q
    ensures Rank(DemandLevelFromPercent(p)) <= Rank(DemandLevelFromPercent(q))
  {
  }

  // ---------------------------------------------------------------- top window

  datatype DemandWindow = DemandWindow(name: string, demandPercent: real)

  /** Index of the element the app's
      `windows.reduce((a, b) => b.demandPercent > a.demandPercent ? b : a)` returns:
      a left fold that starts from the first window and switches only on a strict
      increase. Its contract: a maximum, and the earliest one. */
  function TopIndex(ws: seq<DemandWindow>): (k: nat)
    requires |ws| > 0
    ensures k < |ws|
    ensures forall j :: 0 <= j < |ws| ==> ws[j].demandPercent <= ws[k].demandPercent
    ensures forall j :: 0 <= j < k ==> ws[j].demandPercent < ws[k].demandPercent
  {
    if |ws| == 1 then 0
    else
      var a := TopIndex(ws[..|ws| - 1]);
      if ws[|ws| - 1].demandPercent > ws[a].demandPercent then |ws| - 1 else a
  }

  /** The suggested window: `None` when the demand has no windows (the app
      then shows nothing), otherwise the reduce's result: a window of highest
      demand, the first one among equals. */
  function TopWindow(ws: seq<DemandWindow>): (r: Option<DemandWindow>)
    ensures r.None? <==> ws == []
    ensures r.Some? ==> r.value in ws
    ensures r.Some? ==> forall w :: w in ws ==> w.demandPercent <= r.value.demandPercent
    ensures r.Some? ==> exists k :: 0 <= k < |ws| && ws[k] == r.value
                          && forall j :: 0 <= j < k ==> ws[j].demandPercent < r.value.demandPercent
    ensures r.Some? ==> ws != [] && r.value == ws[TopIndex(ws)]
  {
    if ws == [] then None else Some(ws[TopIndex(ws)])
  }

  /** The reduce's choice is determined by the percentages alone: any index that
      holds a maximum and is preceded only by smaller values is the one chosen. */
  lemma TopIndexUnique(ws: seq<DemandWindow>, k: nat)
    requires k < |ws|
    requires forall j :: 0 <= j < |ws| ==> ws[j].demandPercent <= ws[k].demandPercent
    requires forall j :: 0 <= j < k ==> ws[j].demandPercent < ws[k].demandPercent
    ensures TopIndex(ws) == k
  {
  }

  /** Outcome of the demand effect: the window to alert about, if any, and the
      new remembered level. */
  datatype DemandEffect = DemandEffect(alert: Option<DemandWindow>, lastLevel: Option<Level>)

  /** The effect run when the merchant's demand data changes: nothing happens
      for a non-merchant or an empty window list; otherwise the top window's level
      is remembered, and an alert is raised when it is HIGH and the remembered
      level was not. */
  function OnDemandChanged(isMerchant: bool, ws: seq<DemandWindow>, last: Option<Level>): (e: DemandEffect)
    ensures !isMerchant || ws == [] ==> e == DemandEffect(None, last)
    ensures e.alert.Some? ==> e.alert.value in ws && e.alert.value.demandPercent >= 70.0
    ensures e.alert.Some? ==> last != Some(High)
    ensures e.alert.Some? ==> ws != [] && e.alert.value == ws[TopIndex(ws)]
    ensures isMerchant && ws != [] ==> e.lastLevel == Some(DemandLevelFromPercent(ws[TopIndex(ws)].demandPercent))
  {
    if !isMerchant || ws == [] then DemandEffect(None, last)
    else
      var top := ws[TopIndex(ws)];
      var level := DemandLevelFromPercent(top.demandPercent);
      DemandEffect(if level == High && last != Some(High) then Some(top) else None, Some(level))
  }

  /** The alert fires once per stretch of high demand: re-running the effect on
      the level it remembered raises no second alert. */
  lemma NoRepeatedAlert(isMerchant: bool, ws: seq<DemandWindow>, ws': seq<DemandWindow>, last: Option<Level>)
    requires OnDemandChanged(isMerchant, ws, last).alert.Some?
    requires ws' != [] && ws'[TopIndex(ws')].demandPercent >= 70.0
    ensures OnDemandChanged(isMerchant, ws', OnDemandChanged(isMerchant, ws, last).lastLevel).alert.None?
  {
  }

  /** The alert re-arms: once a reading below HIGH has been remembered, the next
      HIGH reading alerts again. */
  lemma AlertRearms(ws: seq<DemandWindow>, ws': seq<DemandWindow>, last: Option<Level>)
    requires ws != [] && ws[TopIndex(ws)].demandPercent < 70.0
    requires ws' != [] && ws'[TopIndex(ws')].demandPercent >= 70.0
    ensures OnDemandChanged(true, ws', OnDemandChanged(true, ws, last).lastLevel).alert == Some(ws'[TopIndex(ws')])
  {
  }

  /** An alert is raised exactly when the top window is HIGH and the last
      remembered level was not. */
  lemma AlertIff(ws: seq<DemandWindow>, last: Option<Level>)
    requires ws != []
    ensures OnDemandChanged(true, ws, last).alert.Some?
            <==> (forall w :: w in ws ==> w.demandPercent <= ws[TopIndex(ws)].demandPercent)
                 && ws[TopIndex(ws)].demandPercent >= 70.0 && last != Some(High)
  {
  }

  // ---------------------------------------------------------------- activity type

  const Ristorante := "Ristorante"
  const LidoBalneare := "Lido balneare"
  const Intrattenimento := "Intrattenimento / Eventi"

  /** Normalises the server's activity type to one of the app's names:
      `None` stands for null, undefined and the empty string. */
  function MapActivityType(raw: Option<string>): (r: Option<string>)
    ensures r.None? <==> raw == None || raw == Some("")
    ensures r.Some? ==> r == raw || r.value in {Ristorante, LidoBalneare, Intrattenimento}
    ensures raw.Some? && Lower(raw.value) == "ristorazione" ==> r == Some(Ristorante)
    ensures raw.Some? && Lower(raw.value) == "lido" ==> r == Some(LidoBalneare)
    ensures raw.Some? && Lower(raw.value) == "intrattenimento" ==> r == Some(Intrattenimento)
  {
    match raw
    case None => None
    case Some(s) =>
      var v := Lower(s);
      if v == "" then None
      else if v == "ristorazione" then Some(Ristorante)
      else if v == "lido" then Some(LidoBalneare)
      else if v == "intrattenimento" then Some(Intrattenimento)
      else raw
  }

  /** The comparison ignores case: any two spellings of a keyword map to the same
      canonical name. */
  lemma MapActivityTypeCaseInsensitive(a: string, b: string)
    requires Lower(a) == Lower(b)
    requires Lower(a) in {"ristorazione", "lido", "intrattenimento"}
    ensures MapActivityType(Some(a)) == MapActivityType(Some(b))
    ensures MapActivityType(Some(a)).value in {Ristorante, LidoBalneare, Intrattenimento}
  {
  }

  /** A keyword is always renamed: its canonical name is never the input itself. */
  lemma MapActivityTypeRenamesKeywords(a: string)
    requires Lower(a) in {"ristorazione", "lido", "intrattenimento"}
    ensures MapActivityType(Some(a)) != Some(a)
  {
    // the canonical names differ in length from every keyword
    assert |a| == |Lower(a)|;
    assert |MapActivityType(Some(a)).value| in {10, 13, 24};
  }

  /** Other values are returned unchanged, not lower-cased. */
  lemma MapActivityTypeKeepsOthers(s: string)
    requires s != []
    requires Lower(s) !in {"ristorazione", "lido", "intrattenimento"}
    ensures MapActivityType(Some(s)) == Some(s)
  {
  }

  /** Normalising an already normalised value changes nothing. */
  lemma MapActivityTypeIdempotent(raw: Option<string>)
    ensures MapActivityType(MapActivityType(raw)) == MapActivityType(raw)
  {
    var r := MapActivityType(raw);
    if r.Some? && r != raw {
      CanonicalNameKept(r.value);
    }
  }

  /** A canonical name maps to itself: it differs in length from every keyword. */
  lemma CanonicalNameKept(c: string)
    requires c == Ristorante || c == LidoBalneare || c == Intrattenimento
    ensures MapActivityType(Some(c)) == Some(c)
  {
    KeptByLength(c);
  }

  /** A text of 10, 13 or 24 characters is no keyword in any spelling. */
  lemma KeptByLength(s: string)
    requires |s| == 10 || |s| == 13 || |s| == 24
    ensures MapActivityType(Some(s)) == Some(s)
  {
    assert |Lower(s)| == |s|;
    MapActivityTypeKeepsOthers(s);
  }

  // ---------------------------------------------------------------- roundTo5

  const FiveMinutesMs := 5 * 60 * 1000

  /** `Math.ceil(t / ms) * ms` for an integer millisecond timestamp `t`
      (negative timestamps included). */
  function RoundTo5(t: int): (r: int)
    ensures r % FiveMinutesMs == 0
    ensures t <= r < t + FiveMinutesMs
  {
    -((-t) / FiveMinutesMs) * FiveMinutesMs
  }

  /** The rounded time is the least multiple of five minutes not before `t`. */
  lemma RoundTo5Least(t: int, m: int)
    requires m % FiveMinutesMs == 0 && t <= m
    ensures RoundTo5(t) <= m
  {
  }

  /** Rounding an already rounded time changes nothing. */
  lemma RoundTo5Idempotent(t: int)
    ensures RoundTo5(RoundTo5(t)) == RoundTo5(t)
  {
    var r := RoundTo5(t);
    RoundTo5Least(r, r);
  }

  /** A later time never rounds to an earlier one. */
  lemma RoundTo5Monotone(s: int, t: int)
    requires s <= t
    ensures RoundTo5(s) <= RoundTo5(t)
  {
    RoundTo5Least(s, RoundTo5(t));
  }

  // ---------------------------------------------------------------- nextHour

  /** The quotient of `a / b` truncated toward zero. */
  function TruncDiv(a: int, b: int): int
    requires b > 0
  {
    if a >= 0 then a / b else -((-a) / b)
  }

  /** `a % b` as JavaScript computes it: `a` minus `b` times the truncated
      quotient, so the remainder takes the dividend's sign. */
  function JsRem(a: int, b: int): (r: int)
    requires b > 0
    ensures r == a - TruncDiv(a, b) * b
    ensures -b < r < b
    ensures a >= 0 ==> 0 <= r
    ensures a < 0 ==> r <= 0
  {
    if a >= 0 then a % b else -((-a) % b)
  }

  /** A number below 100 as two decimal digits, with a leading zero if needed. */
  function Pad2(n: int): (s: string)
    requires 0 <= n < 100
    ensures |s| == 2 && '0' <= s[0] <= '9' && '0' <= s[1] <= '9'
    ensures DigitsValue(s) == n
  {
    var s := [DigitChar(n / 10), DigitChar(n % 10)];
    assert s[..1][..0] == [] && s[..1] == [s[0]];
    assert DigitsValue(s[..1]) == n / 10;
    assert (n / 10) * 10 + n % 10 == n;
    s
  }

  /** "HH:MM" for a minute of the day, as `toTimeString().slice(0, 5)` shows it:
      two digits of hours, a colon, two digits of minutes. */
  function ClockText(q: int): (s: string)
    requires 0 <= q < 1440
    ensures |s| == 5 && s[2] == ':'
    ensures '0' <= s[0] <= '9' && '0' <= s[1] <= '9' && '0' <= s[3] <= '9' && '0' <= s[4] <= '9'
    ensures DigitsValue(s[..2]) == q / 60 && DigitsValue(s[3..]) == q % 60
  {
    var s := Pad2(q / 60) + ":" + Pad2(q % 60);
    assert s[..2] == Pad2(q / 60) && s[3..] == Pad2(q % 60);
    s
  }

  function DigitValue(c: char): int
  {
    c as int - '0' as int
  }

  /** Reads "HH:MM" back as a minute of the day. */
  function ClockMinutes(s: string): int
    requires |s| == 5
  {
    (DigitValue(s[0]) * 10 + DigitValue(s[1])) * 60 + DigitValue(s[3]) * 10 + DigitValue(s[4])
  }

  lemma ClockTextRoundTrip(q: int)
    requires 0 <= q < 1440
    ensures ClockMinutes(ClockText(q)) == q
  {
    var h, m := q / 60, q % 60;
    assert ClockText(q) == [DigitChar(h / 10), DigitChar(h % 10), ':', DigitChar(m / 10), DigitChar(m % 10)];
    assert (h / 10) * 10 + h % 10 == h;
    assert (m / 10) * 10 + m % 10 == m;
  }

  /** `nextHour(time, add)`. The caller's `time.split(':').map(Number)` is given as
      `hour` and `minute`, `None` standing for NaN or a missing part. `setHours`
      receives `(h + add) % 24` and `setMinutes` receives `m || 0`; both carry over
      into the neighbouring day or hour, so the shown time is that minute count
      modulo one day. An invalid hour makes the date invalid, and the first five
      characters of "Invalid Date" are shown. */
  function NextHour(hour: Option<int>, minute: Option<int>, add: int): (r: string)
    ensures |r| == 5
    ensures hour.None? <==> r == "Inval"
  {
    match hour
    case None => "Inval"
    case Some(h) =>
      var m := match minute case None => 0 case Some(v) => v;
      ClockText((JsRem(h + add, 24) * 60 + m) % 1440)
  }

  /** On an ordinary "HH:MM" the helper moves the hour forward by `add`, wrapping
      past midnight, and keeps the minutes. */
  lemma NextHourShiftsHour(h: int, m: int, add: int)
    requires 0 <= h < 24 && 0 <= m < 60 && add >= 0
    ensures ClockMinutes(NextHour(Some(h), Some(m), add)) == ((h + add) % 24) * 60 + m
    ensures var r := NextHour(Some(h), Some(m), add);
              DigitsValue(r[..2]) == (h + add) % 24 && DigitsValue(r[3..]) == m
  {
    var hh := (h + add) % 24;
    var q := hh * 60 + m;
    assert JsRem(h + add, 24) == hh;
    MinuteOfDay(hh, m);
    assert NextHour(Some(h), Some(m), add) == ClockText(q);
    ClockTextRoundTrip(q);
  }

  lemma MinuteOfDay(hh: int, m: int)
    requires 0 <= hh < 24 && 0 <= m < 60
    ensures 0 <= hh * 60 + m < 1440
    ensures (hh * 60 + m) % 1440 == hh * 60 + m
    ensures (hh * 60 + m) / 60 == hh && (hh * 60 + m) % 60 == m
  {
  }
}
