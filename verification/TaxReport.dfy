/**
 * Sales tax in whole centavos, and the admin report that guesses the region of a cart back
 * from the ratio of its tax to its subtotal.
 */
module TaxReport {

  datatype Region = NCR | Province

  /** The rate in percent. */
  function TaxRate(region: Region): nat
  {
    match region case NCR => 12 case Province => 10
  }

  /** x / 100 rounded to the nearest whole number, halves away from zero. */
  function RoundHundredth(x: int): (r: int)
    ensures x >= 0 ==> 100 * r - 50 <= x < 100 * r + 50
    ensures x < 0 ==> 100 * r - 50 < x <= 100 * r + 50
  {
    if x >= 0 then (x + 50) / 100 else -((-x + 50) / 100)
  }

  /** The tax calculateTotals stores: the rate applied, rounded to centavos. */
  function Tax(subtotal: int, region: Region): int
  {
    RoundHundredth(subtotal * TaxRate(region))
  }

  datatype TaxedCart = TaxedCart(tax: int, subtotal: int)

  /** The report's test, tax / subtotal >= 0.11, for a positive subtotal. */
  predicate CountsAsNcr(cart: TaxedCart)
  {
    100 * cart.tax >= 11 * cart.subtotal
  }

  function Inferred(cart: TaxedCart): Region
  {
    if CountsAsNcr(cart) then NCR else Province
  }

  /** From 50 centavos up the threshold always recovers the region. */
  lemma ThresholdRecoversRegion(subtotal: int, region: Region)
    requires subtotal >= 50
    ensures Inferred(TaxedCart(Tax(subtotal, region), subtotal)) == region
  {
  }

  /** The subtotals for which rounding tips the ratio over the threshold. */
  function Misread(region: Region): set<int>
  {
    match region
    case NCR => {10, 11, 12, 19, 20, 28, 29, 37}
    case Province => {5, 6, 7, 8, 9, 15, 16, 17, 18, 25, 26, 27, 35, 36, 45}
  }

  /** Exactly which carts with some tax the report puts in the wrong region. */
  lemma ThresholdFailsExactly(subtotal: int, region: Region)
    requires subtotal > 0 && Tax(subtotal, region) > 0
    ensures Inferred(TaxedCart(Tax(subtotal, region), subtotal)) == region <==> subtotal !in Misread(region)
  {
    if subtotal >= 50 { ThresholdRecoversRegion(subtotal, region); }
  }

  /** The ratio is never exactly on the threshold, so no rounding of the division decides. */
  lemma NeverOnTheThreshold(subtotal: int, region: Region)
    requires subtotal > 0
    ensures 100 * Tax(subtotal, region) != 11 * subtotal
  {
  }

  // ---------------------------------------------------------------- the report

  datatype Bucket = Bucket(count: nat, tax: int)

  /** Amounts in centavos; the average is not rounded. */
  datatype Report = Report(totalTax: int, average: real, carts: nat, ncr: Bucket, province: Bucket)

  function SumTax(carts: seq<TaxedCart>): int
  {
    if carts == [] then 0 else SumTax(carts[..|carts| - 1]) + carts[|carts| - 1].tax
  }

  function Of(carts: seq<TaxedCart>, region: Region): seq<TaxedCart>
  {
    if carts == [] then []
    else
      var rest, last := Of(carts[..|carts| - 1], region), carts[|carts| - 1];
      if Inferred(last) == region then rest + [last] else rest
  }

  function PerCart(total: int, carts: nat): (r: real)
    ensures r * carts as real == if carts == 0 then 0.0 else total as real
  {
    if carts > 0 then total as real / carts as real else 0.0
  }

  function BucketOf(carts: seq<TaxedCart>, region: Region): Bucket
  {
    Bucket(|Of(carts, region)|, SumTax(Of(carts, region)))
  }

  method GetTaxCollected(carts: seq<TaxedCart>) returns (report: Report)
    ensures report.totalTax == SumTax(carts) && report.carts == |carts|
    ensures report.average == PerCart(report.totalTax, |carts|)
    ensures report.ncr == BucketOf(carts, NCR) && report.province == BucketOf(carts, Province)
    ensures report.ncr.count + report.province.count == report.carts
    ensures report.ncr.tax + report.province.tax == report.totalTax
  {
    var ncrCount, ncrTax, provinceCount, provinceTax := 0, 0, 0, 0;
    var total := 0;
    var i := 0;
    while i < |carts|
      invariant 0 <= i <= |carts|
      invariant total == SumTax(carts[..i])
      invariant Bucket(ncrCount, ncrTax) == BucketOf(carts[..i], NCR)
      invariant Bucket(provinceCount, provinceTax) == BucketOf(carts[..i], Province)
    {
      var cart := carts[i];
      OneMoreCart(carts, i);
      total := total + cart.tax;
      if CountsAsNcr(cart) {
        ncrCount := ncrCount + 1;
        ncrTax := ncrTax + cart.tax;
      } else {
        provinceCount := provinceCount + 1;
        provinceTax := provinceTax + cart.tax;
      }
      i := i + 1;
    }
    assert carts[..i] == carts;
    BucketsAddUp(carts);
    report := Report(total, PerCart(total, |carts|), |carts|, Bucket(ncrCount, ncrTax),
                     Bucket(provinceCount, provinceTax));
  }

  function WithCart(b: Bucket, cart: TaxedCart): Bucket
  {
    Bucket(b.count + 1, b.tax + cart.tax)
  }

  lemma SumAppended(carts: seq<TaxedCart>, last: TaxedCart)
    ensures SumTax(carts + [last]) == SumTax(carts) + last.tax
  {
  }

  /** One cart more goes to the bucket of the region inferred for it. */
  lemma BucketAppended(carts: seq<TaxedCart>, last: TaxedCart, region: Region)
    ensures BucketOf(carts + [last], region)
         == if Inferred(last) == region then WithCart(BucketOf(carts, region), last) else BucketOf(carts, region)
  {
    assert (carts + [last])[..|carts|] == carts;
    SumAppended(Of(carts, region), last);
  }

  lemma OneMoreCart(carts: seq<TaxedCart>, i: nat)
    requires i < |carts|
    ensures SumTax(carts[..i + 1]) == SumTax(carts[..i]) + carts[i].tax
    ensures var ncr, province := BucketOf(carts[..i], NCR), BucketOf(carts[..i], Province);
            && BucketOf(carts[..i + 1], NCR) == (if CountsAsNcr(carts[i]) then WithCart(ncr, carts[i]) else ncr)
            && BucketOf(carts[..i + 1], Province)
               == if CountsAsNcr(carts[i]) then province else WithCart(province, carts[i])
  {
    assert carts[..i + 1] == carts[..i] + [carts[i]];
    SumAppended(carts[..i], carts[i]);
    BucketAppended(carts[..i], carts[i], NCR);
    BucketAppended(carts[..i], carts[i], Province);
  }

  /** Every cart is in exactly one bucket. */
  lemma {:induction false} BucketsAddUp(carts: seq<TaxedCart>)
    ensures BucketOf(carts, NCR).count + BucketOf(carts, Province).count == |carts|
    ensures BucketOf(carts, NCR).tax + BucketOf(carts, Province).tax == SumTax(carts)
  {
    if carts != [] {
      var n := |carts| - 1;
      BucketsAddUp(carts[..n]);
      OneMoreCart(carts, n);
      assert carts[..n + 1] == carts;
    }
  }

  /** A cart taxed at its region's rate, with some tax. */
  predicate Taxed(cart: TaxedCart, region: Region)
  {
    cart.subtotal > 0 && cart.tax == Tax(cart.subtotal, region) && cart.tax > 0
  }

  /** The tax really charged at a region's rate. */
  function Charged(carts: seq<TaxedCart>, regions: seq<Region>, region: Region): int
    requires |carts| == |regions|
  {
    if carts == [] then 0
    else
      var n := |carts| - 1;
      Charged(carts[..n], regions[..n], region) + if regions[n] == region then carts[n].tax else 0
  }

  /** The tax charged in a region on subtotals the threshold misreads. */
  function Strayed(carts: seq<TaxedCart>, regions: seq<Region>, from: Region): int
    requires |carts| == |regions|
  {
    if carts == [] then 0
    else
      var n := |carts| - 1;
      Strayed(carts[..n], regions[..n], from)
      + if regions[n] == from && carts[n].subtotal in Misread(from) then carts[n].tax else 0
  }

  function Other(region: Region): Region
  {
    match region case NCR => Province case Province => NCR
  }

  /**
   * A bucket is the tax charged in its region, plus what strayed in from the other, less what strayed
   * out: it is right exactly when the two are equal.
   */
  lemma {:induction false} BucketStraysExactly(carts: seq<TaxedCart>, regions: seq<Region>, region: Region)
    requires |carts| == |regions|
    requires forall i :: 0 <= i < |carts| ==> Taxed(carts[i], regions[i])
    ensures BucketOf(carts, region).tax
         == Charged(carts, regions, region) + Strayed(carts, regions, Other(region)) - Strayed(carts, regions, region)
  {
    if carts != [] {
      var n := |carts| - 1;
      BucketStraysExactly(carts[..n], regions[..n], region);
      ThresholdFailsExactly(carts[n].subtotal, regions[n]);
      BucketAppended(carts[..n], carts[n], region);
      assert carts[..n] + [carts[n]] == carts;
    }
  }

  lemma {:induction false} NothingStrays(carts: seq<TaxedCart>, regions: seq<Region>, from: Region)
    requires |carts| == |regions|
    requires forall i :: 0 <= i < |carts| ==> carts[i].subtotal !in Misread(regions[i])
    ensures Strayed(carts, regions, from) == 0
  {
    if carts != [] { NothingStrays(carts[..|carts| - 1], regions[..|carts| - 1], from); }
  }

  /** In particular the tax really charged in its region, when no cart's subtotal is one of those misread. */
  lemma ReportMatchesCharges(carts: seq<TaxedCart>, regions: seq<Region>, region: Region)
    requires |carts| == |regions|
    requires forall i :: 0 <= i < |carts| ==> Taxed(carts[i], regions[i]) && carts[i].subtotal !in Misread(regions[i])
    ensures BucketOf(carts, region).tax == Charged(carts, regions, region)
  {
    BucketStraysExactly(carts, regions, region);
    NothingStrays(carts, regions, NCR);
    NothingStrays(carts, regions, Province);
  }
}
