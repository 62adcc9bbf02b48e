/** The battery gauge of `DisplayBatteryLevel` (web_interface/app.py:588-636):
    the caption, the clamped level, the ten bar segments and the low-level
    warning. The drawing itself is left to the display driver. */
module BatteryDisplay {
  import opened Wrappers
  import opened Text
  import opened Telemetry

  /** The level the bars are drawn from: above 110 reads as charging and is
      shown as 100, a negative level (no connection) as 0, anything else
      as it is. */
  function Normalize(level: int): (n: int)
    ensures 0 <= n <= 110
    ensures 0 <= level <= 110 ==> n == level
    ensures level > 110 ==> n == 100
    ensures level < 0 ==> n == 0
  {
    if level > 110 then 100 else if level < 0 then 0 else level
  }

  /** How many of the ten segments are filled: segment k (from the bottom)
      is filled exactly when 10 * k is below the level. */
  function Bars(norm: int): (b: nat)
    ensures b <= 10
    ensures forall k :: 0 <= k < 10 ==> (10 * k < norm <==> k < b)
  {
    if norm <= 0 then 0 else if norm > 90 then 10 else (norm + 9) / 10
  }

  /** The segment loop (app.py:624-628): rows are visited from y = 9 (the
      bottom) up to y = 0 with the threshold rising by 10; `rows[y]` says
      whether the segment at row y is drawn filled. */
  method DrawnRows(norm: int) returns (rows: seq<bool>)
    ensures |rows| == 10
    ensures forall y :: 0 <= y < 10 ==> (rows[y] <==> 9 - y < Bars(norm))
  {
    rows := [false, false, false, false, false, false, false, false, false, false];
    var bl := 0;
    var y := 9;
    while y >= 0
      invariant -1 <= y <= 9
      invariant bl == 10 * (9 - y)
      invariant |rows| == 10
      invariant forall r :: y < r < 10 ==> (rows[r] <==> 10 * (9 - r) < norm)
      invariant forall r :: 0 <= r <= y ==> !rows[r]
    {
      if bl < norm {
        rows := rows[y := true];
      }
      bl := bl + 10;
      y := y - 1;
    }
  }

  /** The warning box is drawn below 4. */
  predicate Warning(norm: int) {
    norm < 4
  }

  datatype Gauge = Gauge(caption: string, norm: int, bars: nat, warning: bool)

  /** `str(batteryLevel)`: the sentinel as a number, a reported level as the
      text the device sent. */
  function LevelText(b: Battery): string {
    if b.Unknown? then IntToString(UnknownLevel) else b.text
  }

  /** What the display shows for a battery level; nothing while a video
      holds the display. */
  function Display(b: Battery, videoActive: bool): (g: Option<Gauge>)
    requires WellFormed(b)
    ensures g.None? <==> videoActive
    ensures g.Some? ==> 0 <= g.value.norm <= 110 && g.value.bars <= 10
    ensures g.Some? ==> (g.value.warning <==> g.value.norm < 4)
    ensures g.Some? ==> g.value.norm == Normalize(Level(b)) && g.value.bars == Bars(g.value.norm)
  {
    if videoActive then None
    else
      var level := Level(b);
      var caption :=
        if level > 110 then "Charging " + LevelText(b)
        else if level < 0 then "ERR:No Con " + LevelText(b)
        else LevelText(b) + "%";
      var norm := Normalize(level);
      Some(Gauge(caption, norm, Bars(norm), Warning(norm)))
  }

  /** Before any telemetry (or after a disconnect) the display reports no
      connection, an empty gauge and the warning. */
  lemma DisplayUnknown()
    ensures Display(Unknown, false) == Some(Gauge("ERR:No Con -999", 0, 0, true))
  {
    assert IntToString(-999) == "-999" by {
      assert NatToString(9) == "9";
      assert NatToString(99) == "99";
      assert NatToString(999) == "999";
    }
    assert Level(Unknown) == -999;
    assert LevelText(Unknown) == "-999";
    assert "ERR:No Con " + "-999" == "ERR:No Con -999";
    assert Bars(Normalize(-999)) == 0;
  }

  /** Any negative level, the sentinel or a reported one, reports no
      connection with the level's text, an empty gauge and the warning. */
  lemma DisplayNoConnection(b: Battery)
    requires WellFormed(b) && Level(b) < 0
    ensures Display(b, false) == Some(Gauge("ERR:No Con " + LevelText(b), 0, 0, true))
  {
  }

  /** A charging level shows a full gauge and no warning. */
  lemma DisplayCharging(b: Battery)
    requires WellFormed(b) && Level(b) > 110
    ensures var g := Display(b, false).value;
            g.caption == "Charging " + b.text && g.norm == 100 && g.bars == 10 && !g.warning
  {
  }

  /** A percentage is shown as sent, with one segment per started ten percent. */
  lemma DisplayPercent(b: Battery)
    requires WellFormed(b) && 0 <= Level(b) <= 110
    ensures var g := Display(b, false).value;
            && g.caption == b.text + "%" && g.norm == Level(b)
            && (g.bars == 0 <==> Level(b) == 0)
            && (g.warning ==> g.bars <= 1)
  {
  }

  /** More charge never shows fewer segments. */
  lemma BarsMonotone(n1: int, n2: int)
    requires n1 <= n2
    ensures Bars(n1) <= Bars(n2)
  {
  }
}
