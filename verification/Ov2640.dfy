/** The OV2640 driver's exposure and window settings, over a banked register file.

    Registers are bytes.  Masks and shifts are written as divisions and remainders: (r & 0xFC) is
    r / 4 * 4, ((x >> 8) & 3) << 4 is x / 256 % 4 * 16, and fields that do not overlap are added. */
module Ov2640 {
  import opened Arith

  datatype Bank = DSP | SENSOR
  datatype Reg = Reg(bank: Bank, address: nat)

  const BANK_SEL: nat := 0xFF

  // sensor bank
  const REG04 := Reg(SENSOR, 0x04)
  const AEC := Reg(SENSOR, 0x10)
  const CLKRC := Reg(SENSOR, 0x11)
  const COM7 := Reg(SENSOR, 0x12)
  const COM8 := Reg(SENSOR, 0x13)
  const REG45 := Reg(SENSOR, 0x45)

  // DSP bank
  const CTRLI := Reg(DSP, 0x50)
  const HSIZE := Reg(DSP, 0x51)
  const VSIZE := Reg(DSP, 0x52)
  const XOFFL := Reg(DSP, 0x53)
  const YOFFL := Reg(DSP, 0x54)
  const VHYX := Reg(DSP, 0x55)
  const TEST := Reg(DSP, 0x57)
  const ZMOW := Reg(DSP, 0x5A)
  const ZMOH := Reg(DSP, 0x5B)
  const ZMHH := Reg(DSP, 0x5C)
  const R_DVP_SP := Reg(DSP, 0xD3)
  const IMAGE_MODE := Reg(DSP, 0xDA)
  const RESET := Reg(DSP, 0xE0)

  type Registers = map<Reg, nat>

  ghost predicate WellFormed(regs: Registers) {
    && (forall b: Bank, a: nat {:trigger Reg(b, a)} :: a < 0x100 && a != BANK_SEL ==> Reg(b, a) in regs)
    && (forall r :: r in regs ==> regs[r] < 0x100)
  }

  class Sensor {
    var bank: Bank
    var regs: Registers

    ghost predicate Valid()
      reads this
    {
      WellFormed(regs)
    }

    /** write_byte: writing BANK_SEL selects the bank for the accesses that follow. */
    method Write(address: nat, data: nat)
      requires Valid() && address < 0x100 && data < 0x100
      modifies this
      ensures Valid()
      ensures address == BANK_SEL ==> bank == (if data == 0 then DSP else SENSOR) && regs == old(regs)
      ensures address != BANK_SEL ==> bank == old(bank) && regs == old(regs)[Reg(bank, address) := data]
    {
      if address == BANK_SEL {
        bank := if data == 0 then DSP else SENSOR;
      } else {
        regs := regs[Reg(bank, address) := data];
      }
    }

    /** read_byte */
    method Read(address: nat) returns (data: nat)
      requires Valid() && address < 0x100 && address != BANK_SEL
      ensures Reg(bank, address) in regs && data == regs[Reg(bank, address)] < 0x100
    {
      assert Reg(bank, address) in regs;
      data := regs[Reg(bank, address)];
    }

    // ---- Exposure ----

    /** set_auto_exposure.  The exposure is only computed when the timing registers hold one of the three
        resolutions and one of the three formats (otherwise the source divides by zero), and the product
        with the clock factor has to fit a C int. */
    method SetAutoExposure(enable: bool, exposureUs: int)
      requires Valid()
      requires !enable && exposureUs >= 0 ==>
            TimingOf(regs).Usable() && exposureUs * TimingOf(regs).clocks < 0x8000_0000
      modifies this
      ensures Valid()
      ensures bank == SENSOR
      ensures enable || exposureUs < 0 ==> regs == old(regs)[COM8 := AecBit(old(regs), enable)]
      ensures !enable && exposureUs >= 0 ==>
                regs == WithCount(old(regs)[COM8 := AecBit(old(regs), enable)], Count(exposureUs, old(TimingOf(regs))))
      ensures COM8 in regs && COM8 in old(regs)
      ensures regs[COM8] / 2 == old(regs)[COM8] / 2 && regs[COM8] % 2 == if enable then 1 else 0
      ensures !enable && exposureUs >= 0 ==> IsLargestCount(CountOf(regs), exposureUs, old(TimingOf(regs)))
    {
      assert COM8 in regs;
      ghost var timing, written := TimingOf(regs), regs[COM8 := AecBit(regs, enable)];
      Write(BANK_SEL, 1);
      var reg := Read(COM8.address);
      Write(COM8.address, reg / 2 * 2 + if enable then 1 else 0);
      if !enable && exposureUs >= 0 {
        var t := ReadTiming();
        StoreCount(Count(exposureUs, t));
        CountRoundTrip(written, Count(exposureUs, t));
        CountIsLargest(exposureUs, t);
      }
    }

    /** The reads of COM7, CLKRC and IMAGE_MODE, which both directions start with. */
    method ReadTiming() returns (t: Timing)
      requires Valid() && bank == SENSOR
      modifies this
      ensures Valid() && bank == DSP && regs == old(regs) && t == TimingOf(regs)
    {
      var reg := Read(COM7.address);
      var tLine := LineTime(reg);
      reg := Read(CLKRC.address);
      var clocks := Clocks(reg);
      Write(BANK_SEL, 0);
      reg := Read(IMAGE_MODE.address);
      t := Timing(tLine, PixelClocks(reg), clocks);
    }

    /** The register writes at the end of set_auto_exposure. */
    method StoreCount(exposure: nat)
      requires Valid() && exposure <= 0xFFFF
      modifies this
      ensures Valid() && bank == SENSOR && regs == WithCount(old(regs), exposure)
    {
      Write(BANK_SEL, 1);
      var reg := Read(REG04.address);
      Write(REG04.address, reg / 4 * 4 + exposure % 4);
      reg := Read(AEC.address);
      Write(AEC.address, exposure / 4 % 0x100);
      reg := Read(REG45.address);
      Write(REG45.address, reg / 64 * 64 + exposure / 1024);
    }

    /** get_exposure_us */
    method GetExposureUs() returns (exposureUs: nat)
      requires Valid()
      modifies this
      ensures Valid() && bank == DSP && regs == old(regs)
      ensures exposureUs == Exposure(CountOf(regs), TimingOf(regs))
    {
      Write(BANK_SEL, 1);
      var reg := Read(COM8.address);
      var aec10 := Read(REG04.address);
      var aec92 := Read(AEC.address);
      var aec1510 := Read(REG45.address);
      var t := ReadTiming();
      exposureUs := Exposure(aec1510 % 64 * 1024 + aec92 * 4 + aec10 % 4, t);
    }
  }

  // ---- Reading the timing registers ----

  /** COM7: UXGA, SVGA and CIF lines; 0 for anything else. */
  function LineTime(reg: nat): nat {
    if reg / 16 % 8 == 0 then 1600 + 322
    else if reg / 16 % 8 == 4 then 800 + 390
    else if reg / 16 % 8 == 2 then 400 + 195
    else 0
  }

  /** IMAGE_MODE: YUV422, RAW10 and RGB565; 0 for anything else. */
  function PixelClocks(reg: nat): nat {
    if reg / 4 % 4 == 0 then 2
    else if reg / 4 % 4 == 1 then 1
    else if reg / 4 % 4 == 2 then 2
    else 0
  }

  /** Clocks per microsecond from CLKRC.  The doubling mask 0x82 shares bit 1 with the divider.
      Whatever the register holds, the factor is between 1 and 72. */
  function Clocks(reg: nat): (k: nat)
    ensures 1 <= k <= 72
  {
    var pllMult := (if reg / 128 % 2 == 1 || reg / 2 % 2 == 1 then 2 else 1) * 3;
    var clkRc := reg % 64 + 2;
    ClockRange(clkRc);
    ((24_000_000 / clkRc) * pllMult) / 1_000_000
  }

  /** The clock in the bits of CLKRC.  With both doubling bits clear the factor is the number of whole
      megahertz in three times the divided 24 MHz; bit 7 doubles it, up to one for rounding; bit 1 doubles it
      too, and then bit 7 makes no difference. */
  lemma ClockBits(reg: nat)
    requires reg < 0x80
    ensures var divided := 24_000_000 / (reg % 64 + 2);
            var times := if reg / 2 % 2 == 1 then 6 else 3;
            1_000_000 * Clocks(reg) <= times * divided < 1_000_000 * Clocks(reg) + 1_000_000
    ensures reg / 2 % 2 == 0 ==> 2 * Clocks(reg) <= Clocks(reg + 0x80) <= 2 * Clocks(reg) + 1
    ensures reg / 2 % 2 == 1 ==> Clocks(reg + 0x80) == Clocks(reg)
  {
    HighBit(reg);
    WholeMegahertz(24_000_000 / (reg % 64 + 2));
  }

  lemma HighBit(reg: nat)
    requires reg < 0x80
    ensures (reg + 0x80) % 64 == reg % 64 && (reg + 0x80) / 2 % 2 == reg / 2 % 2
    ensures (reg + 0x80) / 128 % 2 == 1 && reg / 128 % 2 == 0
  {
  }

  lemma WholeMegahertz(d: nat)
    ensures 1_000_000 * (d * 3 / 1_000_000) <= 3 * d < 1_000_000 * (d * 3 / 1_000_000) + 1_000_000
    ensures 1_000_000 * (d * 6 / 1_000_000) <= 6 * d < 1_000_000 * (d * 6 / 1_000_000) + 1_000_000
    ensures 2 * (d * 3 / 1_000_000) <= d * 6 / 1_000_000 <= 2 * (d * 3 / 1_000_000) + 1
  {
  }

  /** The driver resets CLKRC to 0: 36 clocks a microsecond. */
  lemma ResetClock()
    ensures Clocks(0x00) == 36 && Clocks(0x80) == 72
  {
  }

  /** The codes of the resolutions in bits 4 to 6 of COM7 and of the formats in bits 2 and 3 of IMAGE_MODE. */
  lemma TimingCodes(com7: nat, imageMode: nat)
    requires com7 < 0x100 && imageMode < 0x100
    ensures LineTime(0x00) == 1922 && LineTime(0x40) == 1190 && LineTime(0x20) == 595
    ensures LineTime(com7) == LineTime(com7 / 16 % 8 * 16)
    ensures com7 / 16 % 8 !in {0, 4, 2} ==> LineTime(com7) == 0
    ensures PixelClocks(0x00) == 2 && PixelClocks(0x04) == 1 && PixelClocks(0x08) == 2 && PixelClocks(0x0C) == 0
    ensures PixelClocks(imageMode) == PixelClocks(imageMode / 4 % 4 * 4)
  {
  }

  lemma ClockRange(clkRc: nat)
    requires 2 <= clkRc <= 65
    ensures 369_230 <= 24_000_000 / clkRc <= 12_000_000
  {
    DivMonotone(24_000_000, 2, clkRc);
    DivMonotone(24_000_000, clkRc, 65);
  }

  datatype Timing = Timing(tLine: nat, tPclk: nat, clocks: nat) {
    /** One of the three resolutions and one of the three formats. */
    predicate Usable() {
      tLine >= 595 && tPclk > 0 && 1 <= clocks <= 72
    }
  }

  ghost function TimingOf(regs: Registers): Timing
    requires WellFormed(regs)
  {
    assert COM7 in regs && IMAGE_MODE in regs && CLKRC in regs;
    Timing(LineTime(regs[COM7]), PixelClocks(regs[IMAGE_MODE]), Clocks(regs[CLKRC]))
  }

  // ---- The exposure count in its registers ----

  ghost function AecBit(regs: Registers, enable: bool): nat
    requires WellFormed(regs)
  {
    assert COM8 in regs;
    regs[COM8] / 2 * 2 + if enable then 1 else 0
  }

  /** Two bits in REG04, eight in AEC, six in REG45; the other bits of REG04 and REG45 stay. */
  ghost function WithCount(regs: Registers, n: nat): Registers
    requires WellFormed(regs)
  {
    assert REG04 in regs && REG45 in regs;
    regs[REG04 := regs[REG04] / 4 * 4 + n % 4][AEC := n / 4 % 0x100][REG45 := regs[REG45] / 64 * 64 + n / 1024]
  }

  ghost function CountOf(regs: Registers): nat
    requires WellFormed(regs)
  {
    assert REG45 in regs && AEC in regs && REG04 in regs;
    regs[REG45] % 64 * 1024 + regs[AEC] * 4 + regs[REG04] % 4
  }

  /** Storing a 16-bit count and reading it back gives it back; the bits that do not belong to it, and
      the timing of the exposure, are not touched. */
  lemma CountRoundTrip(regs: Registers, n: nat)
    requires WellFormed(regs) && n <= 0xFFFF
    ensures WellFormed(WithCount(regs, n)) && CountOf(WithCount(regs, n)) == n
    ensures TimingOf(WithCount(regs, n)) == TimingOf(regs)
    ensures WithCount(regs, n)[REG04] / 4 == regs[REG04] / 4 && WithCount(regs, n)[REG45] / 64 == regs[REG45] / 64
    ensures WithCount(regs, n)[REG04] % 4 == n % 4 && WithCount(regs, n)[AEC] == n / 4 % 0x100
    ensures WithCount(regs, n)[REG45] % 64 == n / 1024
  {
    assert REG04 in regs && REG45 in regs && AEC in regs;
    var h := n / 1024;
    assert (regs[REG45] / 64 * 64 + h) % 64 == h && (regs[REG45] / 64 * 64 + h) / 64 == regs[REG45] / 64;
    var l := n % 4;
    assert (regs[REG04] / 4 * 4 + l) % 4 == l && (regs[REG04] / 4 * 4 + l) / 4 == regs[REG04] / 4;
    assert h * 1024 + n / 4 % 0x100 * 4 + l == n;
  }

  // ---- What comes back ----

  /** The count for an exposure time, saturating at 16 bits. */
  function Count(us: nat, t: Timing): nat
    requires t.Usable()
  {
    if Lines(us, t) < 0xFFFF then Lines(us, t) else 0xFFFF
  }

  /** Whole lines in an exposure time. */
  function Lines(us: nat, t: Timing): nat
    requires t.Usable()
  {
    Quotient(Quotient(us * t.clocks, t.tPclk), t.tLine)
  }

  /** The exposure time of a count. */
  function Exposure(count: nat, t: Timing): nat
    requires t.clocks > 0
  {
    count * t.tLine * t.tPclk / t.clocks
  }

  ghost function Period(t: Timing): nat {
    t.tPclk * t.tLine
  }

  /** Rounding down twice, in products only: e counts periods p in v, b is the time of e. */
  lemma TwoRoundings(us: nat, k: nat, p: nat, e: nat, b: nat)
    requires 0 < k
    requires p * e <= k * us < p * e + p
    requires k * b <= p * e < k * b + k
    ensures b <= us && k * (us - b) < p + k
  {
    CancelLeft(k, b, us);
    assert k * (us - b) == k * us - k * b;
  }

  /** And the other way around: b is the time of n, e counts the periods in it. */
  lemma TwoRoundingsBack(n: nat, k: nat, p: nat, e: nat, b: nat)
    requires 0 < k <= p
    requires k * b <= p * n < k * b + k
    requires p * e <= k * b < p * e + p
    ensures n - 1 <= e <= n
  {
    CancelLeft(p, e, n);
    assert p * (e + 2) == p * e + p + p;
    CancelLess(p, n, e + 2);
  }

  lemma PeriodExceedsClocks(t: Timing)
    requires t.Usable()
    ensures t.clocks <= Period(t)
  {
    MulGrows(t.tLine, t.tPclk);
    assert t.tLine * t.tPclk == t.tPclk * t.tLine;
  }

  /** The periods of one line in us microseconds, and the microseconds in n periods. */
  lemma CountIsOneDivision(us: nat, t: Timing)
    requires t.Usable()
    ensures var e := Lines(us, t);
            Period(t) * e <= t.clocks * us < Period(t) * e + Period(t)
  {
    DivTwice(us * t.clocks, t.tPclk, t.tLine);
    DivBounds(us * t.clocks, Period(t));
    assert us * t.clocks == t.clocks * us;
  }

  lemma ExposureIsOneDivision(n: nat, t: Timing)
    requires t.clocks > 0
    ensures var b := Exposure(n, t);
            t.clocks * b <= Period(t) * n < t.clocks * b + t.clocks
  {
    assert n * t.tLine * t.tPclk == Period(t) * n;
    DivBounds(n * t.tLine * t.tPclk, t.clocks);
  }

  /** n lines are over in us microseconds and n + 1 are not; or n is as large as it can be. */
  ghost predicate IsLargestCount(n: nat, us: nat, t: Timing) {
    && n <= 0xFFFF && t.tLine * t.tPclk * n <= us * t.clocks
    && (n < 0xFFFF ==> us * t.clocks < t.tLine * t.tPclk * (n + 1))
  }

  /** The stored count is the largest number of whole lines that fit into the exposure time. */
  lemma CountIsLargest(us: nat, t: Timing)
    requires t.Usable()
    ensures IsLargestCount(Count(us, t), us, t)
  {
    var n, e := Count(us, t), Lines(us, t);
    CountIsOneDivision(us, t);
    Scale(n, e, Period(t));
    assert t.tLine * t.tPclk == Period(t) && Period(t) * (n + 1) == Period(t) * n + Period(t);
    assert t.clocks * us == us * t.clocks;
  }

  /** The time that comes back is never above the one that was set, and unless the count saturates it is
      short of it by less than one line plus one clock. */
  lemma ExposureRoundTrip(us: nat, t: Timing)
    requires t.Usable()
    ensures var b := Exposure(Count(us, t), t);
            b <= us && (Count(us, t) < 0xFFFF ==> t.clocks * (us - b) < Period(t) + t.clocks)
  {
    var e, b := Count(us, t), Exposure(Count(us, t), t);
    CountIsOneDivision(us, t);
    ExposureIsOneDivision(e, t);
    if e < 0xFFFF {
      TwoRoundings(us, t.clocks, Period(t), e, b);
    } else {
      Scale(e, Lines(us, t), Period(t));
      CancelLeft(t.clocks, b, us);
    }
  }

  /** Setting the time that was read back moves the count down by at most one. */
  lemma ReadBackMovesByOne(n: nat, t: Timing)
    requires t.Usable() && n <= 0xFFFF
    ensures n - 1 <= Count(Exposure(n, t), t) <= n
  {
    var b := Exposure(n, t);
    ExposureIsOneDivision(n, t);
    CountIsOneDivision(b, t);
    PeriodExceedsClocks(t);
    TwoRoundingsBack(n, t.clocks, Period(t), Lines(b, t), b);
  }

  /** The whole round trip through the registers. */
  method SetThenGet(sensor: Sensor, us: nat) returns (b: nat)
    requires sensor.Valid() && TimingOf(sensor.regs).Usable() && us * TimingOf(sensor.regs).clocks < 0x8000_0000
    modifies sensor
    ensures sensor.Valid() && old(TimingOf(sensor.regs)) == TimingOf(sensor.regs)
    ensures var t := TimingOf(sensor.regs);
            b <= us && (Count(us, t) < 0xFFFF ==> t.clocks * (us - b) < Period(t) + t.clocks)
  {
    ghost var t, regs := TimingOf(sensor.regs), sensor.regs[COM8 := AecBit(sensor.regs, false)];
    assert COM8 in sensor.regs;
    sensor.SetAutoExposure(false, us);
    CountRoundTrip(regs, Count(us, t));
    b := sensor.GetExposureUs();
    ExposureRoundTrip(us, t);
  }

  /** Ten milliseconds with the clock as reset, SVGA and RGB565: 151 lines. */
  method TenMilliseconds(sensor: Sensor)
    requires sensor.Valid() && {CLKRC, COM7, IMAGE_MODE} <= sensor.regs.Keys
    requires sensor.regs[CLKRC] == 0x00 && sensor.regs[COM7] == 0x40 && sensor.regs[IMAGE_MODE] == 0x08
    modifies sensor
    ensures sensor.Valid() && CountOf(sensor.regs) == 151
  {
    ResetClock();
    TimingCodes(0x40, 0x08);
    assert TimingOf(sensor.regs) == Timing(1190, 2, 36);
    sensor.SetAutoExposure(false, 10_000);
  }
}
