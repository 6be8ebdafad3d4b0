/** The window half of the OV2640 driver: the setup table, the scaled window and its registers. */
module Ov2640Window {
  import opened Arith
  import opened Ov2640

  // ---- Which sizes ----

  const SVGA_WIDTH := 800
  const SVGA_HEIGHT := 600
  const UXGA_WIDTH := 1600
  const UXGA_HEIGHT := 1200

  predicate Accepted(w: nat, h: nat) {
    w % 4 == 0 && h % 4 == 0 && w <= UXGA_WIDTH && h <= UXGA_HEIGHT
  }

  predicate FitsSvga(w: nat, h: nat) {
    w <= SVGA_WIDTH && h <= SVGA_HEIGHT
  }

  function SensorWidth(w: nat, h: nat): nat {
    if FitsSvga(w, h) then SVGA_WIDTH else UXGA_WIDTH
  }

  function SensorHeight(w: nat, h: nat): nat {
    if FitsSvga(w, h) then SVGA_HEIGHT else UXGA_HEIGHT
  }

  function Min(a: nat, b: nat): nat {
    if a < b then a else b
  }

  /** How often the requested size goes into the sensor. */
  function Ratio(w: nat, h: nat): nat
    requires 0 < w && 0 < h
  {
    Min(SensorWidth(w, h) / w, SensorHeight(w, h) / h)
  }

  lemma AtLeast(n: nat, d: nat, q: nat)
    requires 0 < d
    ensures n / d >= q <==> n >= d * q
  {
    DivBounds(n, d);
    if n / d >= q {
      Scale(q, n / d, d);
    }
    if n >= d * q {
      assert d * (n / d + 1) == d * (n / d) + d;
      CancelLess(d, q, n / d + 1);
    }
  }

  /** The divider is log2(ratio) - 1, so a ratio of 1 makes it negative before it is converted to an
      unsigned number.  Among the accepted sizes that is exactly what happens above 400 by 300, and so
      for every size that selects the UXGA setup. */
  lemma DividerDefinedUpTo(w: nat, h: nat)
    requires Accepted(w, h) && 0 < w && 0 < h
    ensures Ratio(w, h) >= 1
    ensures Ratio(w, h) >= 2 <==> w <= 400 && h <= 300
    ensures !FitsSvga(w, h) ==> Ratio(w, h) == 1
  {
    AtLeast(SensorWidth(w, h), w, 1);
    AtLeast(SensorHeight(w, h), h, 1);
    AtLeast(SensorWidth(w, h), w, 2);
    AtLeast(SensorHeight(w, h), h, 2);
  }

  /** The frame sizes a caller can select. */
  const RESOLUTION: seq<(nat, nat)> := [
    (0, 0), (88, 72), (176, 144), (352, 288), (88, 60), (176, 120), (352, 240),
    (40, 30), (80, 60), (160, 120), (320, 240), (640, 480), (30, 20), (60, 40), (120, 80), (240, 160), (480, 320),
    (64, 32), (64, 64), (128, 64), (128, 128), (160, 160), (320, 320),
    (128, 160), (128, 160), (720, 480), (752, 480), (800, 600), (1024, 768), (1280, 768), (1280, 1024), (1280, 960),
    (1600, 1200), (1280, 720), (1920, 1080), (2560, 1440), (2048, 1536), (2560, 1600), (2592, 1944)]

  /** Which of them are accepted although the divider is not defined: the empty entry, 640 by 480 (the size
      the demo is built with), 480 by 320, 320 by 320, and those from 720 by 480 up to UXGA and 1280 by 720. */
  lemma TableSizes(i: nat)
    requires i < |RESOLUTION|
    ensures var (w, h) := RESOLUTION[i];
            Accepted(w, h) && (w == 0 || h == 0 || Ratio(w, h) == 1) <==> i in {0, 11, 16, 22} || 25 <= i <= 33
  {
    var (w, h) := RESOLUTION[i];
    if Accepted(w, h) && 0 < w && 0 < h {
      DividerDefinedUpTo(w, h);
      assert w <= 400 && h <= 300 <==> !(i in {11, 16, 22} || 25 <= i <= 33);
    } else {
      assert i in {0, 7, 12} || i >= 34;
    }
  }

  // ---- The window ----

  function Pow2(n: nat): (p: nat)
    ensures p > 0
  {
    if n == 0 then 1 else 2 * Pow2(n - 1)
  }

  function FloorLog2(n: nat): (l: nat)
    requires n > 0
    ensures Pow2(l) <= n < 2 * Pow2(l)
  {
    if n == 1 then 0 else 1 + FloorLog2(n / 2)
  }

  function LogDiv(w: nat, h: nat): nat
    requires 0 < w && 0 < h && Ratio(w, h) >= 2
  {
    Min(FloorLog2(Ratio(w, h)) - 1, 3)
  }

  datatype Window = Window(wMul: nat, hMul: nat, xOff: nat, yOff: nat, w: nat, h: nat)

  function WindowFor(w: nat, h: nat): Window
    requires Accepted(w, h) && 0 < w && 0 < h && Ratio(w, h) >= 2
  {
    var div := Pow2(LogDiv(w, h));
    DividerBounds(w, h);
    Window(w * div, h * div,
           (SensorWidth(w, h) - w * div) / 2, (SensorHeight(w, h) - h * div) / 2, w, h)
  }

  lemma HalfCapped(l: nat, r: nat)
    requires r >= 2 && Pow2(l) <= r < 2 * Pow2(l)
    ensures l >= 1 && Pow2(Min(l - 1, 3)) in {1, 2, 4, 8}
    ensures 2 * Pow2(Min(l - 1, 3)) <= r && (l - 1 < 3 ==> r < 4 * Pow2(l - 1))
  {
    assert Pow2(0) == 1 && Pow2(1) == 2 && Pow2(2) == 4 && Pow2(3) == 8;
    assert Pow2(l) == 2 * Pow2(l - 1);
    if l >= 4 {
      Pow2Grows(3, l - 1);
    }
  }

  /** The divider is a power of two up to 8, half the ratio rounded down to one. */
  lemma Divider(w: nat, h: nat)
    requires 0 < w && 0 < h && Ratio(w, h) >= 2
    ensures var l, div, r := LogDiv(w, h), Pow2(LogDiv(w, h)), Ratio(w, h);
            l <= 3 && div in {1, 2, 4, 8} && 2 * div <= r && (l < 3 ==> r < 4 * div)
  {
    HalfCapped(FloorLog2(Ratio(w, h)), Ratio(w, h));
  }

  lemma {:induction false} Pow2Grows(m: nat, n: nat)
    requires m <= n
    ensures Pow2(m) <= Pow2(n)
  {
    if m < n {
      Pow2Grows(m, n - 1);
    }
  }

  /** At least 2 * div pieces of length x go into a side exactly when twice the scaled piece does. */
  lemma Pieces(side: nat, x: nat, div: nat)
    requires 0 < x
    ensures side / x >= 2 * div <==> 2 * (x * div) <= side
    ensures side / x < 4 * div <==> side < 4 * (x * div)
  {
    AtLeast(side, x, 2 * div);
    AtLeast(side, x, 4 * div);
    assert x * (2 * div) == 2 * (x * div) && x * (4 * div) == 4 * (x * div);
  }

  /** The scaled window covers at most half the sensor each way and, unless the divider is capped, more
      than a quarter of it one way. */
  lemma DividerBounds(w: nat, h: nat)
    requires 0 < w && 0 < h && Ratio(w, h) >= 2
    ensures var wMul, hMul := w * Pow2(LogDiv(w, h)), h * Pow2(LogDiv(w, h));
            && 2 * wMul <= SensorWidth(w, h) && 2 * hMul <= SensorHeight(w, h)
            && (LogDiv(w, h) < 3 ==> SensorWidth(w, h) < 4 * wMul || SensorHeight(w, h) < 4 * hMul)
  {
    Divider(w, h);
    Pieces(SensorWidth(w, h), w, Pow2(LogDiv(w, h)));
    Pieces(SensorHeight(w, h), h, Pow2(LogDiv(w, h)));
  }

  lemma MultipleOfFour(x: nat, d: nat)
    requires x % 4 == 0
    ensures x * d % 4 == 0
  {
    assert x * d == 4 * (x / 4 * d);
  }

  lemma Centred(side: nat, m: nat)
    requires side in {600, 800, 1200, 1600} && m % 4 == 0 && 2 * m <= side
    ensures var off := (side - m) / 2;
            m <= 800 && off <= 800 && 2 * off + m == side
  {
  }

  /** The scaled window lies exactly centred in the sensor, and every number fits its register fields. */
  lemma WindowIsCentred(w: nat, h: nat)
    requires Accepted(w, h) && 0 < w && 0 < h && Ratio(w, h) >= 2
    ensures var win := WindowFor(w, h);
            && Fits(win)
            && 2 * win.xOff + win.wMul == SensorWidth(w, h)
            && 2 * win.yOff + win.hMul == SensorHeight(w, h)
  {
    DividerBounds(w, h);
    MultipleOfFour(w, Pow2(LogDiv(w, h)));
    MultipleOfFour(h, Pow2(LogDiv(w, h)));
    Centred(SensorWidth(w, h), w * Pow2(LogDiv(w, h)));
    Centred(SensorHeight(w, h), h * Pow2(LogDiv(w, h)));
  }

  // ---- The window in its registers ----

  /** What the register fields can hold: sizes in units of four, offsets of ten bits. */
  predicate Fits(win: Window) {
    && win.wMul % 4 == 0 && win.hMul % 4 == 0 && win.w % 4 == 0 && win.h % 4 == 0
    && win.wMul < 4096 && win.hMul < 2048 && win.w < 4096 && win.h < 2048
    && win.xOff < 1024 && win.yOff < 1024
  }

  /** VHYX: the tenth bits of the sizes and the upper bits of the offsets. */
  function Vhyx(win: Window): (r: nat)
    ensures r < 0x100
    ensures r / 8 % 2 == win.wMul / 1024 % 2 && r / 128 == win.hMul / 1024 % 2
    ensures r % 4 == win.xOff / 256 % 4 && r / 16 % 4 == win.yOff / 256 % 4
  {
    win.wMul / 1024 % 2 * 8 + win.hMul / 1024 % 2 * 128 + win.xOff / 256 % 4 + win.yOff / 256 % 4 * 16
  }

  function Zmhh(win: Window): (r: nat)
    ensures r < 0x100
    ensures r % 4 == win.w / 1024 % 4 && r / 4 % 2 == win.h / 1024 % 2
  {
    win.w / 1024 % 4 + win.h / 1024 % 2 * 4
  }

  /** The registers after the writes that end set_framesize. */
  function WithWindow(regs: Registers, win: Window, logDiv: nat): Registers {
    regs[CTRLI := 0x80 + logDiv % 4 * 8 + logDiv % 4]
        [HSIZE := win.wMul / 4 % 0x100]
        [VSIZE := win.hMul / 4 % 0x100]
        [XOFFL := win.xOff % 0x100]
        [YOFFL := win.yOff % 0x100]
        [VHYX := Vhyx(win)]
        [TEST := win.wMul / 2048 % 2 * 128]
        [ZMOW := win.w / 4 % 0x100]
        [ZMOH := win.h / 4 % 0x100]
        [ZMHH := Zmhh(win)]
        [R_DVP_SP := Pow2(logDiv) % 0x100]
        [RESET := 0]
  }

  /** The window the chip works with, from the fields of its registers. */
  ghost function WindowOf(regs: Registers): Window
    requires {HSIZE, VSIZE, XOFFL, YOFFL, VHYX, TEST, ZMOW, ZMOH, ZMHH} <= regs.Keys
  {
    Window(regs[HSIZE] * 4 + regs[VHYX] / 8 % 2 * 1024 + regs[TEST] / 128 * 2048,
           regs[VSIZE] * 4 + regs[VHYX] / 128 * 1024,
           regs[XOFFL] + regs[VHYX] % 4 * 256,
           regs[YOFFL] + regs[VHYX] / 16 % 4 * 256,
           regs[ZMOW] * 4 + regs[ZMHH] % 4 * 1024,
           regs[ZMOH] * 4 + regs[ZMHH] / 4 % 2 * 1024)
  }

  /** Sizes and offsets put together again from their fields. */
  lemma WideSize(x: nat)
    requires x % 4 == 0 && x < 4096
    ensures x / 4 % 0x100 * 4 + x / 1024 % 2 * 1024 + x / 2048 % 2 * 128 / 128 * 2048 == x
    ensures x / 4 % 0x100 * 4 + x / 1024 % 4 * 1024 == x
  {
  }

  lemma Size(x: nat)
    requires x % 4 == 0 && x < 2048
    ensures x / 4 % 0x100 * 4 + x / 1024 % 2 * 1024 == x
  {
  }

  lemma Offset(x: nat)
    requires x < 1024
    ensures x % 0x100 + x / 256 % 4 * 256 == x
  {
  }

  /** Every register of the window is written with a byte and holds what was written. */
  lemma WrittenBytes(regs: Registers, win: Window, logDiv: nat)
    requires WellFormed(regs) && logDiv <= 3
    ensures WellFormed(WithWindow(regs, win, logDiv))
    ensures var r := WithWindow(regs, win, logDiv);
            && {HSIZE, VSIZE, XOFFL, YOFFL, VHYX, TEST, ZMOW, ZMOH, ZMHH} <= r.Keys
            && r[HSIZE] == win.wMul / 4 % 0x100 && r[VSIZE] == win.hMul / 4 % 0x100
            && r[XOFFL] == win.xOff % 0x100 && r[YOFFL] == win.yOff % 0x100
            && r[VHYX] == Vhyx(win) && r[TEST] == win.wMul / 2048 % 2 * 128
            && r[ZMOW] == win.w / 4 % 0x100 && r[ZMOH] == win.h / 4 % 0x100 && r[ZMHH] == Zmhh(win)
  {
  }

  /** The packed fields do not overlap: decoding them gives back the window. */
  lemma WindowRoundTrip(regs: Registers, win: Window, logDiv: nat)
    requires WellFormed(regs) && Fits(win) && logDiv <= 3
    ensures WellFormed(WithWindow(regs, win, logDiv)) && WindowOf(WithWindow(regs, win, logDiv)) == win
  {
    WrittenBytes(regs, win, logDiv);
    WideSize(win.wMul);
    Size(win.hMul);
    Offset(win.xOff);
    Offset(win.yOff);
    WideSize(win.w);
    Size(win.h);
  }

  /** The divider is in three registers, twice as a logarithm and once as it is, and the low-power bit is set;
      the last write releases the reset. */
  lemma DividerRegisters(regs: Registers, win: Window, logDiv: nat)
    requires WellFormed(regs) && logDiv <= 3
    ensures var r := WithWindow(regs, win, logDiv);
            && {CTRLI, R_DVP_SP, RESET} <= r.Keys
            && r[CTRLI] % 8 == logDiv && r[CTRLI] / 8 % 8 == logDiv && r[CTRLI] / 64 == 2
            && r[R_DVP_SP] == Pow2(logDiv) && r[RESET] == 0
  {
    assert Pow2(0) == 1 && Pow2(1) == 2 && Pow2(2) == 4 && Pow2(3) == 8;
  }

  /** The chip scales by the factor that makes the output size the window: horizontally and vertically. */
  ghost predicate ScalesTo(regs: Registers, win: Window)
    requires {CTRLI, R_DVP_SP, RESET} <= regs.Keys
  {
    && win.w * regs[R_DVP_SP] == win.wMul && win.h * regs[R_DVP_SP] == win.hMul
    && Pow2(regs[CTRLI] % 8) == Pow2(regs[CTRLI] / 8 % 8) == regs[R_DVP_SP]
    && regs[RESET] == 0
  }

  // ---- The setup table ----

  datatype Chip = Chip(bank: Bank, regs: Registers)

  type Table = seq<(nat, nat)>

  predicate Bytes(t: Table) {
    forall i :: 0 <= i < |t| ==> t[i].0 < 0x100 && t[i].1 < 0x100
  }

  function Written(c: Chip, address: nat, data: nat): Chip {
    if address == BANK_SEL then c.(bank := if data == 0 then DSP else SENSOR)
    else c.(regs := c.regs[Reg(c.bank, address) := data])
  }

  /** The chip after a table of writes, which ends at the first entry with address 0. */
  function AfterTable(c: Chip, t: Table): Chip
    decreases |t|
  {
    if t == [] || t[0].0 == 0 then c else AfterTable(Written(c, t[0].0, t[0].1), t[1..])
  }

  /** The sensor half of svga_regs and uxga_regs, then the DSP half. */
  function SensorSetup(svga: bool): Table {
    [(BANK_SEL, 1), (0x12, if svga then 0x40 else 0x00), (0x03, if svga then 0x8A else 0x8F), (0x17, 0x11),
     (0x18, if svga then 0x43 else 0x75), (0x19, 0x01), (0x1A, 0x97), (0x32, if svga then 0x09 else 0x36)]
  }

  function DspSetup(svga: bool): Table {
    [(BANK_SEL, 0), (0xE0, 0x04), (0x8C, 0x00), (0xC0, if svga then 100 else 200), (0xC1, if svga then 75 else 150),
     (0x86, 0x3D), (0, 0)]
  }

  function Setup(svga: bool): Table {
    SensorSetup(svga) + DspSetup(svga)
  }

  lemma {:induction false} TableSplit(c: Chip, t: Table, u: Table)
    requires forall i :: 0 <= i < |t| ==> t[i].0 != 0
    ensures AfterTable(c, t + u) == AfterTable(AfterTable(c, t), u)
    decreases |t|
  {
    if t == [] {
      assert t + u == u;
    } else {
      assert (t + u)[1..] == t[1..] + u;
      TableSplit(Written(c, t[0].0, t[0].1), t[1..], u);
    }
  }

  /** A table leaves alone the registers whose address it does not hold, and the bank if it does not
      select one. */
  lemma {:induction false} Untouched(c: Chip, t: Table)
    ensures forall r :: r in c.regs && (forall i :: 0 <= i < |t| ==> t[i].0 != r.address) ==>
                          r in AfterTable(c, t).regs && AfterTable(c, t).regs[r] == c.regs[r]
    ensures (forall i :: 0 <= i < |t| ==> t[i].0 != BANK_SEL) ==> AfterTable(c, t).bank == c.bank
    decreases |t|
  {
    if t != [] && t[0].0 != 0 {
      Untouched(Written(c, t[0].0, t[0].1), t[1..]);
      assert forall i :: 1 <= i < |t| ==> t[i] == t[1..][i - 1];
    }
  }

  lemma {:induction false} TableKeepsWellFormed(c: Chip, t: Table)
    requires WellFormed(c.regs) && Bytes(t)
    ensures WellFormed(AfterTable(c, t).regs)
    decreases |t|
  {
    if t != [] && t[0].0 != 0 {
      TableKeepsWellFormed(Written(c, t[0].0, t[0].1), t[1..]);
    }
  }

  /** COM7 is written second and not again. */
  lemma SelectsResolution(c: Chip, svga: bool)
    ensures var d := AfterTable(c, Setup(svga));
            COM7 in d.regs && d.regs[COM7] == if svga then 0x40 else 0x00
  {
    var t := Setup(svga);
    var rest := t[1..][1..];
    var first := Written(c, t[0].0, t[0].1);
    var second := Written(first, t[1].0, t[1].1);
    assert AfterTable(c, t) == AfterTable(first, t[1..]) == AfterTable(second, rest);
    assert forall i :: 0 <= i < |rest| ==> rest[i].0 != COM7.address;
    hide AfterTable, SensorSetup, DspSetup;
    Untouched(second, rest);
  }

  /** The DSP half starts with selecting its bank. */
  lemma EndsInDsp(c: Chip, svga: bool)
    ensures AfterTable(c, Setup(svga)).bank == DSP
  {
    TableSplit(c, SensorSetup(svga), DspSetup(svga));
    Untouched(Written(AfterTable(c, SensorSetup(svga)), BANK_SEL, 0), DspSetup(svga)[1..]);
  }

  lemma SetupKeepsWellFormed(c: Chip, svga: bool)
    requires WellFormed(c.regs)
    ensures WellFormed(AfterTable(c, Setup(svga)).regs)
  {
    TableKeepsWellFormed(c, Setup(svga));
  }

  lemma SetupKeepsExposureRegisters(c: Chip, svga: bool)
    requires WellFormed(c.regs)
    ensures var d := AfterTable(c, Setup(svga)).regs;
            forall r :: r in {REG04, AEC, REG45, CLKRC, IMAGE_MODE} ==> r in c.regs && r in d && d[r] == c.regs[r]
  {
    var t := Setup(svga);
    Untouched(c, t);
    assert forall i :: 0 <= i < |t| ==> t[i].0 !in {0x04, 0x10, 0x45, 0x11, 0xDA};
    assert forall r :: r in {REG04, AEC, REG45, CLKRC, IMAGE_MODE} ==> r in c.regs;
  }

  /** The exposure count and the timing depend on five registers and COM7 only. */
  lemma ExposureFrame(r: Registers, q: Registers)
    requires WellFormed(r) && WellFormed(q) && COM7 in r
    requires forall x :: x in {REG04, AEC, REG45, CLKRC, IMAGE_MODE} ==> x in q && x in r && r[x] == q[x]
    ensures CountOf(r) == CountOf(q)
    ensures TimingOf(r) == TimingOf(q).(tLine := LineTime(r[COM7]))
  {
    assert forall x :: x in {REG04, AEC, REG45, CLKRC, IMAGE_MODE} ==> r[x] == q[x];
  }

  /** The setup selects the resolution, ends in the DSP bank, and touches neither the exposure count nor
      the other timing registers. */
  lemma SetupEffect(c: Chip, svga: bool, d: Chip)
    requires WellFormed(c.regs) && d == AfterTable(c, Setup(svga))
    ensures WellFormed(d.regs) && d.bank == DSP
    ensures CountOf(d.regs) == CountOf(c.regs)
    ensures TimingOf(d.regs) == TimingOf(c.regs).(tLine := if svga then 1190 else 1922)
  {
    SetupKeepsWellFormed(c, svga);
    SetupKeepsExposureRegisters(c, svga);
    SelectsResolution(c, svga);
    ExposureFrame(d.regs, c.regs);
    EndsInDsp(c, svga);
  }

  /** The window registers hold neither the exposure count nor its timing. */
  lemma WindowKeepsExposure(regs: Registers, win: Window, logDiv: nat)
    requires WellFormed(regs) && logDiv <= 3
    ensures WellFormed(WithWindow(regs, win, logDiv))
    ensures CountOf(WithWindow(regs, win, logDiv)) == CountOf(regs)
    ensures TimingOf(WithWindow(regs, win, logDiv)) == TimingOf(regs)
  {
    hide CountOf, Vhyx, Zmhh, Pow2;
    WrittenBytes(regs, win, logDiv);
    assert COM7 in regs && WithWindow(regs, win, logDiv)[COM7] == regs[COM7];
    ExposureFrame(WithWindow(regs, win, logDiv), regs);
  }

  // ---- set_framesize ----

  method WriteTable(sensor: Sensor, t: Table)
    requires sensor.Valid() && Bytes(t) && (exists i :: 0 <= i < |t| && t[i].0 == 0)
    modifies sensor
    ensures sensor.Valid() && Chip(sensor.bank, sensor.regs) == AfterTable(old(Chip(sensor.bank, sensor.regs)), t)
  {
    var i := 0;
    while t[i].0 != 0
      invariant 0 <= i < |t| && sensor.Valid()
      invariant forall j :: 0 <= j < i ==> t[j].0 != 0
      invariant AfterTable(Chip(sensor.bank, sensor.regs), t[i..]) == AfterTable(old(Chip(sensor.bank, sensor.regs)), t)
      decreases |t| - i
    {
      assert t[i..][1..] == t[i + 1..];
      sensor.Write(t[i].0, t[i].1);
      i := i + 1;
    }
  }

  /** The loop over the setup table. */
  method WriteSetup(sensor: Sensor, svga: bool)
    requires sensor.Valid()
    modifies sensor
    ensures sensor.Valid() && sensor.bank == DSP
    ensures sensor.regs == AfterTable(old(Chip(sensor.bank, sensor.regs)), Setup(svga)).regs
    ensures CountOf(sensor.regs) == old(CountOf(sensor.regs))
    ensures TimingOf(sensor.regs) == old(TimingOf(sensor.regs)).(tLine := if svga then 1190 else 1922)
  {
    var t := Setup(svga);
    SetupEffect(Chip(sensor.bank, sensor.regs), svga, AfterTable(Chip(sensor.bank, sensor.regs), t));
    assert t[|t| - 1].0 == 0;
    WriteTable(sensor, t);
  }

  /** The writes that end set_framesize. */
  method WriteWindow(sensor: Sensor, win: Window, logDiv: nat)
    requires sensor.Valid() && sensor.bank == DSP && logDiv <= 3
    modifies sensor
    ensures sensor.Valid() && sensor.bank == DSP && sensor.regs == WithWindow(old(sensor.regs), win, logDiv)
  {
    sensor.Write(CTRLI.address, 0x80 + logDiv % 4 * 8 + logDiv % 4);
    sensor.Write(HSIZE.address, win.wMul / 4 % 0x100);
    sensor.Write(VSIZE.address, win.hMul / 4 % 0x100);
    sensor.Write(XOFFL.address, win.xOff % 0x100);
    sensor.Write(YOFFL.address, win.yOff % 0x100);
    sensor.Write(VHYX.address, Vhyx(win));
    sensor.Write(TEST.address, win.wMul / 2048 % 2 * 128);
    sensor.Write(ZMOW.address, win.w / 4 % 0x100);
    sensor.Write(ZMOH.address, win.h / 4 % 0x100);
    sensor.Write(ZMHH.address, Zmhh(win));
    sensor.Write(R_DVP_SP.address, Pow2(logDiv) % 0x100);
    sensor.Write(RESET.address, 0);
  }

  /** set_framesize.  A refused size changes nothing.  An accepted one leaves the centred window in the
      registers and the timing of the SVGA setup, keeps the exposure count, and writes nothing but the
      setup table and the window. */
  method SetFramesize(sensor: Sensor, w: nat, h: nat) returns (ret: int)
    requires sensor.Valid()
    requires Accepted(w, h) ==> 0 < w && 0 < h && Ratio(w, h) >= 2
    modifies sensor
    ensures sensor.Valid()
    ensures ret == -1 <==> w % 4 != 0 || h % 4 != 0 || w > 1600 || h > 1200
    ensures !Accepted(w, h) ==> ret == -1 && sensor.bank == old(sensor.bank) && sensor.regs == old(sensor.regs)
    ensures Accepted(w, h) ==>
              && ret == 0 && sensor.bank == DSP && WindowOf(sensor.regs) == WindowFor(w, h)
              && {CTRLI, R_DVP_SP, RESET} <= sensor.regs.Keys && ScalesTo(sensor.regs, WindowFor(w, h))
              && WindowFor(w, h).w == w && WindowFor(w, h).h == h
              && sensor.regs == WithWindow(AfterTable(old(Chip(sensor.bank, sensor.regs)), Setup(FitsSvga(w, h))).regs,
                                           WindowFor(w, h), LogDiv(w, h))
              && CountOf(sensor.regs) == old(CountOf(sensor.regs))
              && TimingOf(sensor.regs) == old(TimingOf(sensor.regs)).(tLine := 1190)
  {
    if w % 4 != 0 || h % 4 != 0 || w > UXGA_WIDTH || h > UXGA_HEIGHT {
      return -1;
    }
    WriteSetup(sensor, FitsSvga(w, h));
    DividerDefinedUpTo(w, h);
    Divider(w, h);
    WindowIsCentred(w, h);
    WindowRoundTrip(sensor.regs, WindowFor(w, h), LogDiv(w, h));
    WindowKeepsExposure(sensor.regs, WindowFor(w, h), LogDiv(w, h));
    DividerRegisters(sensor.regs, WindowFor(w, h), LogDiv(w, h));
    WriteWindow(sensor, WindowFor(w, h), LogDiv(w, h));
    return 0;
  }
}
