/** refresh_disp_image of the K210 demo: a 16.16 fixed-point scaler that only adds in its loops.

    The claim is nearest-neighbour sampling: display column x of D shows source column
    floor(x * width / D), and rows likewise. */
module Scaler {
  import opened Arith

  const DISPLAY_WIDTH: nat := 160
  const DISPLAY_HEIGHT: nat := 120
  const ONE: nat := 0x1_0000           // 1.0 in 16.16
  const WRAP: nat := 0x1_0000_0000     // uint32_t

  /** The step per display pixel, rounded up past the exact ratio. */
  function Ratio(size: nat, display: nat): nat
    requires display > 0
  {
    (size * ONE) % WRAP / display + 1
  }

  /** The exact sampling position. */
  function Nearest(x: nat, size: nat, display: nat): nat
    requires display > 0
  {
    x * size / display
  }

  /** How far x * ratio is ahead of the exact position, in 16.16 and scaled by the display size. */
  lemma RatioExcess(x: nat, size: nat, display: nat)
    requires display > 0 && size * ONE < WRAP
    ensures display * (x * Ratio(size, display)) == ONE * (x * size) + x * (display - size * ONE % display)
  {
    var n := size * ONE;
    var q, r := n / display, n % display;
    assert n % WRAP == n;
    assert Ratio(size, display) == q + 1 && n == display * q + r;
    ExcessOf(x, n, q, r, display);
    assert x * n == ONE * (x * size);
  }

  lemma ExcessOf(x: nat, n: nat, q: nat, r: nat, display: nat)
    requires n == display * q + r && r <= display
    ensures display * (x * (q + 1)) == x * n + x * (display - r)
  {
    assert x * n + x * (display - r) == x * (n + (display - r));
    assert n + (display - r) == display * (q + 1);
    assert x * (display * (q + 1)) == display * (x * (q + 1));
  }

  /** A position with an excess e over display * k + t rounds down to k as long as e does not reach the
      next whole position. */
  lemma RoundsTo(k: nat, t: nat, a: nat, e: nat, display: nat)
    requires t < display && display * a == ONE * (display * k + t) + e
    ensures a / ONE == k <==> e < ONE * (display - t)
  {
    assert ONE * (display * k + t) == display * (ONE * k) + ONE * t;
    assert ONE * (display - t) == ONE * display - ONE * t;
    assert display * (ONE * k + ONE) == display * (ONE * k) + ONE * display;
    CancelLeft(display, ONE * k, a);
    DivBounds(a, ONE);
    if e < ONE * (display - t) {
      CancelLess(display, a, ONE * k + ONE);
      DivModUnique(a, k, a - ONE * k, ONE);
    } else {
      CancelLeft(display, ONE * k + ONE, a);
    }
  }

  /** When dropping the fraction of the accumulated ratio gives the nearest-neighbour column: exactly when the
      excess of x rounded-up steps stays below what is left of the exact position's fraction. */
  lemma ExactWhen(x: nat, size: nat, display: nat)
    requires display > 0 && size * ONE < WRAP
    ensures x * Ratio(size, display) / ONE == Nearest(x, size, display) <==>
            x * (display - size * ONE % display) < ONE * (display - x * size % display)
  {
    hide Ratio;
    var p := x * size;
    DivMod(p, display);
    DivMod(size * ONE, display);
    RatioExcess(x, size, display);
    RoundsTo(p / display, p % display, x * Ratio(size, display), x * (display - size * ONE % display), display);
  }

  /** So it is exact for every column, every display size with display * (display - 1) < 65536, and every
      source size the 32-bit shift can hold. */
  lemma FixedPointExact(x: nat, size: nat, display: nat)
    requires display > 0 && x < display && display * (display - 1) < ONE && size * ONE < WRAP
    ensures x * Ratio(size, display) / ONE == Nearest(x, size, display)
  {
    ExactWhen(x, size, display);
    ExcessBelowOne(x, size * ONE % display, display);
    Scale(1, display - x * size % display, ONE);
  }

  lemma ExcessBelowOne(x: nat, r: nat, display: nat)
    requires x < display && r < display && display * (display - 1) < ONE
    ensures x * (display - r) < ONE
  {
    Scale(display - r, display, x);
    Scale(x, display - 1, display);
    assert x * display == display * x;
  }

  /** The sampling position is inside the source. */
  lemma InsideSource(x: nat, size: nat, display: nat)
    requires x < display && size > 0
    ensures Nearest(x, size, display) < size
  {
    DivBounds(x * size, display);
    Scale(x + 1, display, size);
    assert size * (x + 1) == x * size + size;
    CancelLess(display, Nearest(x, size, display), size);
  }

  /** The accumulator never wraps, not even after the last addition. */
  lemma NoWrap(x: nat, size: nat, display: nat)
    requires 0 < display && x <= display && display <= 0x100 && size < ONE
    ensures size * ONE < WRAP && x * Ratio(size, display) < WRAP
  {
    var n := size * ONE;
    assert n <= (ONE - 1) * ONE && n % WRAP == n;
    DivBounds(n, display);
    Scale(x, display, Ratio(size, display));
    assert display * Ratio(size, display) == display * (n / display) + display;
    assert Ratio(size, display) * x == x * Ratio(size, display);
    assert Ratio(size, display) * display == display * Ratio(size, display);
  }

  /** The pixel of the captured frame that display pixel (x, y) must show. */
  ghost function Sample<P>(frame: seq<P>, width: nat, height: nat, x: nat, y: nat): P
    requires 0 < width && 0 < height && |frame| == width * height && x < DISPLAY_WIDTH && y < DISPLAY_HEIGHT
  {
    InsideSource(x, width, DISPLAY_WIDTH);
    InsideSource(y, height, DISPLAY_HEIGHT);
    InFrame(Nearest(x, width, DISPLAY_WIDTH), Nearest(y, height, DISPLAY_HEIGHT), width, height);
    frame[width * Nearest(y, height, DISPLAY_HEIGHT) + Nearest(x, width, DISPLAY_WIDTH)]
  }

  lemma InFrame(col: nat, row: nat, width: nat, height: nat)
    requires col < width && row < height
    ensures width * row + col < width * height
  {
    Scale(row + 1, height, width);
    assert width * (row + 1) == width * row + width;
  }

  /** The accumulator at display pixel x. */
  function Accumulated(x: nat, size: nat, display: nat): nat
    requires display > 0
  {
    x * Ratio(size, display)
  }

  lemma Columns(x: nat, size: nat, display: nat)
    requires 0 < display && x < display && display * (display - 1) < ONE && display <= 0x100 && 0 < size < ONE
    ensures Accumulated(0, size, display) == 0
    ensures Accumulated(x, size, display) / ONE == Nearest(x, size, display) < size
    ensures (Accumulated(x, size, display) + Ratio(size, display)) % WRAP == Accumulated(x + 1, size, display)
  {
    NoWrap(x, size, display);
    NoWrap(x + 1, size, display);
    FixedPointExact(x, size, display);
    InsideSource(x, size, display);
    assert (x + 1) * Ratio(size, display) == x * Ratio(size, display) + Ratio(size, display);
    DivModUnique((x + 1) * Ratio(size, display), 0, (x + 1) * Ratio(size, display), WRAP);
  }

  /** Past that bound it depends on the sizes.  A one-pixel source on 257 columns misses in the last column;
      on 258 columns it is exact in every column. */
  lemma PastTheBound(x: nat)
    requires x < 258
    ensures 256 * Ratio(1, 257) / ONE != Nearest(256, 1, 257)
    ensures x * Ratio(1, 258) / ONE == Nearest(x, 1, 258)
  {
    DivModUnique(1 * ONE, 255, 1, 257);
    ExactWhen(256, 1, 257);
    DivModUnique(1 * ONE, 254, 4, 258);
    DivModUnique(x * 1, 0, x, 258);
    ExactWhen(x, 1, 258);
  }

  /** Row y of the display is right. */
  ghost predicate RowShows<P>(disp: seq<P>, frame: seq<P>, width: nat, height: nat, y: nat, upTo: nat)
    requires 0 < width && 0 < height && |frame| == width * height && |disp| == DISPLAY_WIDTH * DISPLAY_HEIGHT
    requires y < DISPLAY_HEIGHT && upTo <= DISPLAY_WIDTH
  {
    forall x :: 0 <= x < upTo ==> disp[DISPLAY_WIDTH * y + x] == Sample(frame, width, height, x, y)
  }

  /** The inner loop: one display row from one source row. */
  method RefreshRow<P>(capData: array<P>, width: nat, height: nat, dispData: array<P>, srcY: nat, destData: nat,
                       ghost y: nat)
    requires 0 < width < ONE && 0 < height < ONE && y < DISPLAY_HEIGHT
    requires capData.Length == width * height && dispData.Length == DISPLAY_WIDTH * DISPLAY_HEIGHT &&
        capData != dispData
    requires srcY / ONE == Nearest(y, height, DISPLAY_HEIGHT) < height && destData == DISPLAY_WIDTH * y
    modifies dispData
    ensures RowShows(dispData[..], capData[..], width, height, y, DISPLAY_WIDTH)
    ensures forall k :: 0 <= k < dispData.Length && !(destData <= k < destData + DISPLAY_WIDTH) ==>
          dispData[k] == old(dispData[k])
  {
    var wRatio := (width * ONE) % WRAP / DISPLAY_WIDTH + 1;
    assert wRatio == Ratio(width, DISPLAY_WIDTH);
    Columns(0, width, DISPLAY_WIDTH);
    hide Ratio, Nearest, Accumulated;
    var srcData := width * (srcY / ONE);
    var srcX := 0;
    for x := 0 to DISPLAY_WIDTH
      invariant srcX == Accumulated(x, width, DISPLAY_WIDTH)
      invariant RowShows(dispData[..], capData[..], width, height, y, x)
      invariant forall k :: 0 <= k < dispData.Length && !(destData <= k < destData + DISPLAY_WIDTH) ==>
            dispData[k] == old(dispData[k])
    {
      Columns(x, width, DISPLAY_WIDTH);
      InFrame(srcX / ONE, srcY / ONE, width, height);
      dispData[destData + x] := capData[srcData + srcX / ONE];
      srcX := (srcX + wRatio) % WRAP;
    }
  }

  /** refresh_disp_image, for the 16-bit sizes of the resolution table.  Pixels are indexed instead of addressed. */
  method RefreshDispImage<P>(capData: array<P>, width: nat, height: nat, dispData: array<P>)
    requires 0 < width < ONE && 0 < height < ONE
    requires capData.Length == width * height && dispData.Length == DISPLAY_WIDTH * DISPLAY_HEIGHT &&
        capData != dispData
    modifies dispData
    ensures forall y :: 0 <= y < DISPLAY_HEIGHT ==> RowShows(dispData[..], capData[..], width, height, y, DISPLAY_WIDTH)
    ensures forall x, y :: 0 <= x < 160 && 0 <= y < 120 ==>
                             var i := width * Nearest(y, height, 120) + Nearest(x, width, 160);
                             i < capData.Length && dispData[160 * y + x] == capData[i]
  {
    var hRatio := (height * ONE) % WRAP / DISPLAY_HEIGHT + 1;
    assert hRatio == Ratio(height, DISPLAY_HEIGHT);
    Columns(0, height, DISPLAY_HEIGHT);
    hide Ratio, Nearest, Accumulated;
    var destData := 0;
    var srcY := 0;
    for y := 0 to DISPLAY_HEIGHT
      invariant srcY == Accumulated(y, height, DISPLAY_HEIGHT) && destData == DISPLAY_WIDTH * y
      invariant forall j :: 0 <= j < y ==> RowShows(dispData[..], capData[..], width, height, j, DISPLAY_WIDTH)
    {
      Columns(y, height, DISPLAY_HEIGHT);
      ghost var before := dispData[..];
      RefreshRow(capData, width, height, dispData, srcY, destData, y);
      forall j | 0 <= j < y ensures RowShows(dispData[..], capData[..], width, height, j, DISPLAY_WIDTH) {
        assert RowShows(before, capData[..], width, height, j, DISPLAY_WIDTH);
        assert forall k :: 0 <= k < destData ==> dispData[..][k] == before[k];
      }
      srcY := (srcY + hRatio) % WRAP;
      destData := destData + DISPLAY_WIDTH;
    }
    AllSamples(capData, width, height, dispData);
  }

  lemma SampleAt<P>(disp: seq<P>, frame: seq<P>, width: nat, height: nat, x: nat, y: nat)
    requires 0 < width && 0 < height && |frame| == width * height && |disp| == DISPLAY_WIDTH * DISPLAY_HEIGHT
    requires x < DISPLAY_WIDTH && y < DISPLAY_HEIGHT && RowShows(disp, frame, width, height, y, DISPLAY_WIDTH)
    ensures var i := width * Nearest(y, height, DISPLAY_HEIGHT) + Nearest(x, width, DISPLAY_WIDTH);
            i < |frame| && disp[DISPLAY_WIDTH * y + x] == frame[i]
  {
    InsideSource(x, width, DISPLAY_WIDTH);
    InsideSource(y, height, DISPLAY_HEIGHT);
    InFrame(Nearest(x, width, DISPLAY_WIDTH), Nearest(y, height, DISPLAY_HEIGHT), width, height);
    assert disp[DISPLAY_WIDTH * y + x] == Sample(frame, width, height, x, y);
  }

  lemma AllSamples<P>(capData: array<P>, width: nat, height: nat, dispData: array<P>)
    requires 0 < width && 0 < height
    requires capData.Length == width * height && dispData.Length == DISPLAY_WIDTH * DISPLAY_HEIGHT
    requires forall y :: 0 <= y < DISPLAY_HEIGHT ==>
                           RowShows(dispData[..], capData[..], width, height, y, DISPLAY_WIDTH)
    ensures forall x, y :: 0 <= x < 160 && 0 <= y < 120 ==>
                             var i := width * Nearest(y, height, 120) + Nearest(x, width, 160);
                             i < capData.Length && dispData[160 * y + x] == capData[i]
  {
    hide Nearest, RowShows;
    forall x, y | 0 <= x < 160 && 0 <= y < 120
      ensures var i := width * Nearest(y, height, 120) + Nearest(x, width, 160);
              i < capData.Length && dispData[160 * y + x] == capData[i]
    {
      SampleAt(dispData[..], capData[..], width, height, x, y);
    }
  }
}
