/** The direct pair swap: which reserve is which, how much to ask for, and the pair's
    own check (section 3.2.1 of the Uniswap v2 Core whitepaper) as the yardstick. */
module UniswapV2 {
  import opened Basics

  const TWO_112: nat := 0x1_0000_0000_0000_0000_0000_0000_0000
  const TWO_256: nat := 0x1_0000_0000_0000_0000_0000_0000_0000_0000_0000_0000_0000_0000_0000_0000_0000_0000

  /** What is sent to the pair's swap function, or why nothing is. */
  datatype Plan = Swap(amount0Out: nat, amount1Out: nat) | InsufficientLiquidity | NothingToSell

  function AmountOut(amountIn: nat, reserveIn: nat, reserveOut: nat): (r: nat)
    requires amountIn > 0 || reserveIn > 0
  {
    var withFee := amountIn * 997;
    var numerator: nat := withFee * reserveOut;
    Quotient(numerator, reserveIn * 1000 + withFee)
  }

  /** `sellsToken0`: the token sold is the pair's token0. */
  function PlanSwap(sellsToken0: bool, r0: nat, r1: nat, amountIn: nat): (r: Plan) {
    if amountIn == 0 then NothingToSell
    else
      var (reserveIn, reserveOut) := if sellsToken0 then (r0, r1) else (r1, r0);
      var out := AmountOut(amountIn, reserveIn, reserveOut);
      if out == 0 then InsufficientLiquidity
      else Swap(if sellsToken0 then 0 else out, if sellsToken0 then out else 0)
  }

  /** The pair's check: something goes out, not all of a reserve, and the product of the
      balances after the 0.3% fee on what came in is not below that of the reserves. */
  predicate PairAccepts(r0: nat, r1: nat, in0: nat, in1: nat, out0: nat, out1: nat) {
    && (out0 > 0 || out1 > 0)
    && out0 < r0 && out1 < r1
    && ((r0 + in0 - out0) * 1000 - in0 * 3) * ((r1 + in1 - out1) * 1000 - in1 * 3) >= (r0 * r1) * 1_000_000
  }

  /** The check when `x` of one token comes in and `y` of the other goes out. */
  predicate SaleAccepted(sellsToken0: bool, r0: nat, r1: nat, x: nat, y: nat) {
    if sellsToken0 then PairAccepts(r0, r1, x, 0, 0, y) else PairAccepts(r0, r1, 0, x, y, 0)
  }

  /** Both sides of the pair's check, brought to one: the output y costs D each, and the
      input buys N. */
  lemma CheckIsLinear(x: nat, rin: nat, rout: nat, y: nat)
    requires y < rout
    ensures ((rin + x) * 1000 - x * 3) * ((rout - y) * 1000) >= (rin * rout) * 1_000_000
            <==> y * (rin * 1000 + x * 997) <= x * 997 * rout
  {
    var d := rin * 1000 + x * 997;
    assert (rin + x) * 1000 - x * 3 == d;
    assert d * ((rout - y) * 1000) == (d * rout - y * d) * 1000 by {
      assert d * (rout - y) == d * rout - y * d;
    }
    assert d * rout == rin * rout * 1000 + x * 997 * rout;
  }

  lemma QuotientIsLargest(n: nat, d: nat, y: nat)
    requires d > 0
    ensures y * d <= n <==> y <= n / d
  {
    var q := n / d;
    assert n == q * d + n % d;
    if y <= q {
      Scaled(y, q, d);
    } else {
      Scaled(q + 1, y, d);
    }
  }

  /** Never the whole reserve. */
  lemma BelowReserve(x: nat, rin: nat, rout: nat)
    requires rin > 0 && rout > 0
    ensures AmountOut(x, rin, rout) < rout
  {
    var d := rin * 1000 + x * 997;
    QuotientIsLargest(x * 997 * rout, d, rout);
    assert rout * d == rin * rout * 1000 + x * 997 * rout;
    assert rin * rout > 0;
  }

  /** Selling on one side, the pair accepts an output exactly up to the amount computed. */
  lemma AcceptedUpToAmountOut(sellsToken0: bool, r0: nat, r1: nat, x: nat, y: nat)
    requires r0 > 0 && r1 > 0
    ensures SaleAccepted(sellsToken0, r0, r1, x, y)
            <==> 0 < y <= (if sellsToken0 then AmountOut(x, r0, r1) else AmountOut(x, r1, r0))
  {
    var (rin, rout) := if sellsToken0 then (r0, r1) else (r1, r0);
    BelowReserve(x, rin, rout);
    if y < rout {
      CheckIsLinear(x, rin, rout, y);
      QuotientIsLargest(x * 997 * rout, rin * 1000 + x * 997, y);
      Commutes((rin + x) * 1000 - x * 3, (rout - y) * 1000, r0, r1);
    }
  }

  lemma Commutes(a: int, b: int, c: int, d: int)
    ensures a * b == b * a && c * d == d * c
  {
  }

  /** Whichever side is token0: a planned swap passes the pair's check and no larger
      output would; and there is no plan exactly when no output at all would pass. */
  lemma PlanIsOptimal(sellsToken0: bool, r0: nat, r1: nat, x: nat)
    requires r0 > 0 && r1 > 0
    ensures match PlanSwap(sellsToken0, r0, r1, x)
            case Swap(out0, out1) =>
              && (if sellsToken0 then out0 == 0 else out1 == 0)
              && SaleAccepted(sellsToken0, r0, r1, x, out0 + out1)
              && forall more: nat :: more > out0 + out1 ==> !SaleAccepted(sellsToken0, r0, r1, x, more)
            case InsufficientLiquidity =>
              x > 0 && forall y: nat :: !SaleAccepted(sellsToken0, r0, r1, x, y)
            case NothingToSell =>
              x == 0 && forall y: nat :: !SaleAccepted(sellsToken0, r0, r1, x, y)
  {
    forall y: nat
      ensures SaleAccepted(sellsToken0, r0, r1, x, y)
              <==> 0 < y <= (if sellsToken0 then AmountOut(x, r0, r1) else AmountOut(x, r1, r0))
    {
      AcceptedUpToAmountOut(sellsToken0, r0, r1, x, y);
    }
  }

  /** With an empty reserve: nothing to buy makes no plan, and nothing on the selling side
      makes the plan ask for the whole other reserve, which the pair refuses. */
  lemma EmptyReserves(sellsToken0: bool, r0: nat, r1: nat, x: nat)
    requires x > 0 && (r0 == 0 || r1 == 0)
    ensures var (reserveIn, reserveOut) := if sellsToken0 then (r0, r1) else (r1, r0);
            if reserveOut == 0 then PlanSwap(sellsToken0, r0, r1, x) == InsufficientLiquidity
            else
              && PlanSwap(sellsToken0, r0, r1, x)
                 == (if sellsToken0 then Swap(0, reserveOut) else Swap(reserveOut, 0))
              && !SaleAccepted(sellsToken0, r0, r1, x, reserveOut)
  {
    var reserveOut := if sellsToken0 then r1 else r0;
    var withFee := x * 997;
    if reserveOut > 0 {
      QuotientIsLargest(withFee * reserveOut, withFee, reserveOut);
      QuotientIsLargest(withFee * reserveOut, withFee, reserveOut + 1);
      assert (reserveOut + 1) * withFee == withFee * reserveOut + withFee;
    }
  }

  /** With 112-bit amounts none of the 256-bit intermediates overflows. */
  lemma FitsIn256Bits(x: nat, rin: nat, rout: nat)
    requires x < TWO_112 && rin < TWO_112 && rout < TWO_112
    ensures x * 997 < TWO_256 && x * 997 * rout < TWO_256 && rin * 1000 + x * 997 < TWO_256
  {
    Scaled(x * 997, TWO_112 * 997, rout);
    assert TWO_112 * 997 * rout <= TWO_112 * 997 * TWO_112;
  }
}
