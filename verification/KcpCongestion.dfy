/** The arithmetic of KCP's congestion window: `incr` stays within one mss of cwnd * mss. */
module KcpCongestion {
  import opened Word32
  import opened KcpEndpoint

  predicate Near(cwnd: int, incr: int, mss: int) {
    (cwnd - 1) * mss < incr < (cwnd + 1) * mss
  }

  /** In every state: ssthresh is at least 2, and incr counts cwnd in bytes to within one mss. */
  predicate CwndOk(k: Kcb) {
    && k.ssthresh >= THRESH_MIN
    && k.cwnd < 0x1_0000
    && k.rmtWnd < 0x1_0000
    && Near(k.cwnd, k.incr, k.cfg.Mss())
  }

  lemma CreatedCwnd(cfg: Config)
    ensures CwndOk(Created(cfg))
  {
    Products(0, cfg.Mss());
  }

  // ---- Products and quotients by a variable ----

  lemma MulMono(a: int, b: int, c: int)
    requires a <= b && 0 <= c
    ensures a * c <= b * c
  {
  }

  lemma Products(n: int, mss: int)
    ensures (n - 1) * mss == n * mss - mss
    ensures (n + 1) * mss == n * mss + mss
  {
  }

  lemma DivUpper(x: int, d: int, q: int)
    requires 0 < d && 0 <= x < (q + 1) * d
    ensures x / d <= q
  {
    assert x == d * (x / d) + x % d;
    if q + 1 <= x / d {
      MulMono(q + 1, x / d, d);
    }
  }

  lemma DivLower(x: int, d: int, q: int)
    requires 0 < d && q * d <= x
    ensures q <= x / d
  {
    assert x == d * (x / d) + x % d;
    if x / d + 1 <= q {
      MulMono(x / d + 1, q, d);
    }
  }

  /** No 32-bit overflow: these products fit a word with room for more. */
  lemma ProductFits(cwnd: int, mss: int)
    requires 0 <= cwnd <= 0x1_0000 && 0 <= mss < 0x1_0000 - 24
    ensures 0 <= cwnd * mss < MODULUS - 0x18_0000 + 1
  {
    MulMono(0, cwnd, mss);
    MulMono(cwnd, 0x1_0000, mss);
  }

  /** One additive increase adds at most one mss and a sixteenth. */
  lemma IncrementBound(mss: int, incr: int)
    requires 0 < mss <= incr
    ensures 0 <= mss * mss / incr <= mss
  {
    MulMono(mss, incr, mss);
    MulMono(0, mss, mss);
    assert (mss + 1) * incr == incr * mss + incr;
    DivUpper(mss * mss, incr, mss);
    DivLower(mss * mss, incr, 0);
  }

  /** Rounding incr up to whole segments gives a window it is near to. */
  lemma RoundUpNear(incr: int, mss: int)
    requires 0 < mss && 0 < incr
    ensures Near((incr + mss - 1) / mss, incr, mss)
  {
    var x := incr + mss - 1;
    assert x == mss * (x / mss) + x % mss;
    Products(x / mss, mss);
  }

  /** In congestion avoidance incr exceeds one mss, so the division is defined and the
      repair of a too small incr never happens. */
  lemma RepairNeverNeeded(k: Kcb)
    requires CwndOk(k) && k.cwnd >= k.ssthresh
    ensures k.cfg.Mss() < k.incr
  {
    MulMono(1, k.cwnd - 1, k.cfg.Mss());
  }

  function AvoidanceIncr(incr: int, mss: int): int
    requires 0 < incr
  {
    incr + mss * mss / incr + mss / 16
  }

  function AvoidanceCwnd(cwnd: int, incr: int, mss: int): int
    requires 0 < incr && 0 < mss
  {
    var incr' := AvoidanceIncr(incr, mss);
    if (cwnd + 1) * mss <= incr' then (incr' + mss - 1) / mss else cwnd
  }

  /** The avoidance branch: the window after one additive increase is near incr again, and
      is not lowered. */
  lemma AvoidanceNear(cwnd: int, incr: int, mss: int)
    requires 2 <= cwnd < 0xffff && 26 <= mss < 0x1_0000 - 24 && mss < incr && Near(cwnd, incr, mss)
    ensures AvoidanceIncr(incr, mss) + mss - 1 < MODULUS
    ensures Near(AvoidanceCwnd(cwnd, incr, mss), AvoidanceIncr(incr, mss), mss)
    ensures cwnd <= AvoidanceCwnd(cwnd, incr, mss) < 0x1_0002
  {
    IncrementBound(mss, incr);
    ProductFits(cwnd + 1, mss);
    var incr' := AvoidanceIncr(incr, mss);
    RoundUpNear(incr', mss);
    Products(cwnd, mss);
    Products(cwnd + 1, mss);
    Products(cwnd + 2, mss);
    Products(cwnd + 3, mss);
    if (cwnd + 1) * mss <= incr' {
      DivUpper(incr' + mss - 1, mss, cwnd + 3);
      DivLower(incr' + mss - 1, mss, cwnd);
    }
  }

  lemma WrapSmall(x: int)
    requires 0 <= x < MODULUS
    ensures Wrap(x) == x
  {
  }

  /** Cutting the window to the peer's keeps it near. */
  lemma CutNear(c: int, i: int, rmtWnd: u32, mss: nat)
    requires 0 < mss < 0x1_0000 - 24 && Near(c, i, mss) && rmtWnd < 0x1_0000
    ensures Wrap(rmtWnd * mss) == rmtWnd * mss && Near(rmtWnd, rmtWnd * mss, mss)
  {
    ProductFits(rmtWnd, mss);
    Products(rmtWnd, mss);
  }

  lemma SlowStartNear(cwnd: int, incr: int, mss: nat)
    requires 0 < mss < 0x1_0000 - 24 && Near(cwnd, incr, mss) && 0 <= cwnd < 0xffff && 0 <= incr
    ensures Wrap(incr + mss) == incr + mss && Near(cwnd + 1, incr + mss, mss)
  {
    ProductFits(cwnd + 1, mss);
    Products(cwnd, mss);
    Products(cwnd + 1, mss);
  }

  lemma GrowWindowNear(cwnd: u32, incr: u32, thresh: u32, rmtWnd: u32, mss: nat)
    requires 26 <= mss < 0x1_0000 - 24 && 2 <= thresh && Near(cwnd, incr, mss) && cwnd < rmtWnd < 0x1_0000
    ensures
      var (c, i) := GrowWindow(cwnd, incr, thresh, rmtWnd, mss);
      Near(c, i, mss) && cwnd <= c <= rmtWnd
  {
    CutNear(cwnd, incr, rmtWnd, mss);
    if cwnd < thresh {
      SlowStartNear(cwnd, incr, mss);
      hide Near, Wrap;
    } else {
      MulMono(1, cwnd - 1, mss);
      assert mss < incr;
      hide Near, Wrap;
      IncrementBound(mss, incr);
      AvoidanceNear(cwnd, incr, mss);
      ProductFits(cwnd + 1, mss);
      WrapSmall(AvoidanceIncr(incr, mss));
      WrapSmall((cwnd + 1) * mss);
      WrapSmall(AvoidanceIncr(incr, mss) + mss - 1);
      WrapSmall(AvoidanceCwnd(cwnd, incr, mss));
    }
  }

  lemma GrowCwndOk(k: Kcb)
    requires CwndOk(k)
    ensures CwndOk(GrowCwnd(k))
    ensures k.cwnd < k.rmtWnd ==> k.cwnd <= GrowCwnd(k).cwnd <= k.rmtWnd
  {
    if k.cwnd < k.rmtWnd {
      GrowWindowNear(k.cwnd, k.incr, k.ssthresh, k.rmtWnd, k.cfg.Mss());
    }
    hide GrowWindow;
  }

  /** What an acknowledgement of new data makes of the window, in whole numbers: nothing overflows. Below the
      threshold it grows by one; from there on incr grows by its additive increase and the window when
      incr has reached one more segment; and the peer's window cuts both. */
  lemma GrowExactly(k: Kcb)
    requires CwndOk(k) && k.cwnd < k.rmtWnd
    ensures k.cwnd >= k.ssthresh ==> k.incr > 0
    ensures
      var k', mss := GrowCwnd(k), k.cfg.Mss();
      var c := if k.cwnd < k.ssthresh then k.cwnd + 1 else AvoidanceCwnd(k.cwnd, k.incr, mss);
      var i := if k.cwnd < k.ssthresh then k.incr + mss else AvoidanceIncr(k.incr, mss);
      && k' == k.(cwnd := k'.cwnd, incr := k'.incr)
      && (k'.cwnd, k'.incr) == if c <= k.rmtWnd then (c, i) else (k.rmtWnd, k.rmtWnd * mss)
  {
    hide Near, Wrap, GrowWindow, AvoidanceCwnd, AvoidanceIncr, CwndOk;
    var mss := k.cfg.Mss();
    assert 26 <= mss < 0x1_0000 - 24;
    CwndHas(k);
    CutNear(k.cwnd, k.incr, k.rmtWnd, mss);
    if k.cwnd < k.ssthresh {
      BelowThreshold(k.cwnd, k.incr, k.ssthresh, k.rmtWnd, mss);
    } else {
      RepairNeverNeeded(k);
      FromThreshold(k.cwnd, k.incr, k.ssthresh, k.rmtWnd, mss);
    }
  }

  lemma CwndHas(k: Kcb)
    requires CwndOk(k)
    ensures 2 <= k.ssthresh && k.rmtWnd < 0x1_0000 && Near(k.cwnd, k.incr, k.cfg.Mss())
  {
  }

  lemma BelowThreshold(cwnd: u32, incr: u32, thresh: u32, rmtWnd: u32, mss: nat)
    requires 26 <= mss < 0x1_0000 - 24 && Near(cwnd, incr, mss) && cwnd < rmtWnd < 0x1_0000 && cwnd < thresh
    ensures GrowWindow(cwnd, incr, thresh, rmtWnd, mss) == (cwnd + 1, incr + mss)
  {
    SlowStartNear(cwnd, incr, mss);
    hide Near, Wrap;
  }

  lemma FromThreshold(cwnd: u32, incr: u32, thresh: u32, rmtWnd: u32, mss: nat)
    requires 26 <= mss < 0x1_0000 - 24 && Near(cwnd, incr, mss) && 2 <= thresh <= cwnd < rmtWnd < 0x1_0000
    requires mss < incr
    ensures
      var c, i := AvoidanceCwnd(cwnd, incr, mss), AvoidanceIncr(incr, mss);
      GrowWindow(cwnd, incr, thresh, rmtWnd, mss) == if c <= rmtWnd then (c, i) else (rmtWnd, Wrap(rmtWnd * mss))
  {
    hide Near, Wrap;
    IncrementBound(mss, incr);
    AvoidanceNear(cwnd, incr, mss);
    ProductFits(cwnd + 1, mss);
    WrapSmall(AvoidanceIncr(incr, mss));
    WrapSmall((cwnd + 1) * mss);
    WrapSmall(AvoidanceIncr(incr, mss) + mss - 1);
    WrapSmall(AvoidanceCwnd(cwnd, incr, mss));
  }

  /** Window and incr after n acknowledgements of new data in congestion avoidance. */
  function Avoided(cwnd: int, incr: int, mss: int, n: nat): (r: (int, int))
    requires 0 < incr && 0 < mss
    ensures 0 < r.1
  {
    if n == 0 then (cwnd, incr)
    else
      var (c, i) := Avoided(cwnd, incr, mss, n - 1);
      assert mss * mss / i >= 0 by { MulMono(0, mss, mss); DivLower(mss * mss, i, 0); }
      (AvoidanceCwnd(c, i, mss), AvoidanceIncr(i, mss))
  }

  lemma {:induction false} IncrGrows(cwnd: int, incr: int, mss: int, n: nat)
    requires 16 <= mss && 0 < incr
    ensures Avoided(cwnd, incr, mss, n).1 >= incr + n * (mss / 16)
  {
    hide AvoidanceCwnd;
    if n > 0 {
      IncrGrows(cwnd, incr, mss, n - 1);
      var i := Avoided(cwnd, incr, mss, n - 1).1;
      MulMono(0, mss, mss);
      DivLower(mss * mss, i, 0);
      assert n * (mss / 16) == (n - 1) * (mss / 16) + mss / 16;
    }
  }

  /** While the window stays, incr stays below one more segment. */
  lemma {:induction false} StaysBelow(cwnd: int, incr: int, mss: int, n: nat)
    requires 26 <= mss && Near(cwnd, incr, mss) && 0 < incr
    requires forall m: nat | m <= n :: Avoided(cwnd, incr, mss, m).0 == cwnd
    ensures Avoided(cwnd, incr, mss, n).1 < (cwnd + 1) * mss
  {
    if n > 0 {
      var (c, i) := Avoided(cwnd, incr, mss, n - 1);
      assert c == cwnd && Avoided(cwnd, incr, mss, n).0 == cwnd;
      StaysBelow(cwnd, incr, mss, n - 1);
      var i' := AvoidanceIncr(i, mss);
      if (cwnd + 1) * mss <= i' { DivLower(i' + mss - 1, mss, cwnd + 1); }
    }
  }

  /** In congestion avoidance 64 acknowledgements of new data are enough to make the window grow. */
  lemma AvoidanceGrows(cwnd: int, incr: int, mss: int)
    requires 26 <= mss && Near(cwnd, incr, mss) && 0 < incr
    ensures exists n: nat :: n <= 64 && Avoided(cwnd, incr, mss, n).0 != cwnd
  {
    assert 64 * (mss / 16) >= 2 * mss;
    IncrGrows(cwnd, incr, mss, 64);
    Products(cwnd, mss);
    hide Avoided;
    if forall m: nat | m <= 64 :: Avoided(cwnd, incr, mss, m).0 == cwnd { StaysBelow(cwnd, incr, mss, 64); }
  }

  /** A window counted in bytes afresh. */
  lemma FreshNear(cwnd: u32, mss: nat)
    requires 0 < mss < 0x1_0000 - 24 && cwnd < 0x1_0000
    ensures Near(cwnd, Wrap(cwnd * mss), mss)
  {
    ProductFits(cwnd, mss);
    Products(cwnd, mss);
    WrapSmall(cwnd * mss);
  }

  /** Fast retransmission and timeouts: the new thresholds stay at least 2. */
  lemma ShrinkCwndOk(k: Kcb, prior: u32, fast: bool, lost: bool)
    requires CwndOk(k) && Sub(k.sndNxt, k.sndUna) < 0x1_0000
    ensures CwndOk(ShrinkCwnd(k, prior, fast, lost))
    ensures ShrinkCwnd(k, prior, fast, lost).cwnd >= 1
  {
    var mss := k.cfg.Mss();
    var thresh := Max(Sub(k.sndNxt, k.sndUna) / 2, THRESH_MIN);
    var cwnd := Add(thresh, Resent(k.cfg));
    assert cwnd < 0x1_0000;
    FreshNear(cwnd, mss);
    Products(1, mss);
    assert Near(1, mss, mss);
    hide Near, Wrap, Sub, Add, Resent;
  }
}
