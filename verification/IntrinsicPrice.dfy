/** Derivation of the intrinsic cost of a transaction from measured batches. */
module IntrinsicPrice {
  import opened Wrappers

  /** What a batch consumed and what its users paid for. */
  datatype Resources = Resources(gasConsumed: nat, pubdataPublished: nat, gasPaid: nat, pubdataPaid: nat)

  /** The measurement of a batch by its number of transactions. */
  type Measurement = nat -> Resources

  datatype IntrinsicPrices = IntrinsicPrices(
    txGas: nat,
    txPubdata: nat,
    bootloaderGas: nat,
    bootloaderPubdata: nat)

  /** Which overhead of the second and the third transaction differs. */
  datatype OverheadError = GasDiffers | PubdataDiffers

  /** A longer batch consumes and pays no less, so that no difference underflows. */
  predicate NoLess(prev: Resources, next: Resources) {
    && prev.gasConsumed <= next.gasConsumed && prev.pubdataPublished <= next.pubdataPublished
    && prev.gasPaid <= next.gasPaid && prev.pubdataPaid <= next.pubdataPaid
  }

  ghost predicate IsMonotone(measure: Measurement) {
    forall n: nat :: NoLess(measure(n), measure(n + 1))
  }

  function SaturatingSub(a: nat, b: nat): nat {
    if a < b then 0 else a - b
  }

  /** The gas and the pubdata that one more transaction consumed and did not pay for. */
  function GetIntrinsicPrice(prev: Resources, next: Resources): (nat, nat)
    requires NoLess(prev, next)
  {
    (SaturatingSub(next.gasConsumed - prev.gasConsumed, next.gasPaid - prev.gasPaid),
     SaturatingSub(next.pubdataPublished - prev.pubdataPublished, next.pubdataPaid - prev.pubdataPaid))
  }

  function Max(a: nat, b: nat): nat {
    if a < b then b else a
  }

  /** The prices from batches of up to three transactions; panics if the second and the third
      transaction differ. */
  function GetIntrinsicOverheads(measure: Measurement): Result<IntrinsicPrices, OverheadError>
    requires NoLess(measure(0), measure(1)) && NoLess(measure(1), measure(2)) && NoLess(measure(2), measure(3))
  {
    var first := GetIntrinsicPrice(measure(0), measure(1));
    var second := GetIntrinsicPrice(measure(1), measure(2));
    var third := GetIntrinsicPrice(measure(2), measure(3));
    if second.0 != third.0 then Err(GasDiffers)
    else if second.1 != third.1 then Err(PubdataDiffers)
    else Ok(IntrinsicPrices(Max(first.0, second.0), Max(first.1, second.1),
                            measure(0).gasConsumed, measure(0).pubdataPublished))
  }

  /** What the sanity check stands for: from the second transaction on the overhead is constant. */
  ghost predicate IsSteady(measure: Measurement)
    requires IsMonotone(measure)
  {
    forall n: nat :: n >= 1 ==> GetIntrinsicPrice(measure(n), measure(n + 1)) == GetIntrinsicPrice(measure(1), measure(2))
  }

  /** A price per transaction covers the transaction number n + 1 of a batch. */
  predicate CoversGas(measure: Measurement, price: nat, n: nat) {
    measure(n + 1).gasConsumed - measure(n).gasConsumed <= measure(n + 1).gasPaid - measure(n).gasPaid + price
  }

  predicate CoversPubdata(measure: Measurement, price: nat, n: nat) {
    measure(n + 1).pubdataPublished - measure(n).pubdataPublished <=
      measure(n + 1).pubdataPaid - measure(n).pubdataPaid + price
  }

  lemma PricesCover(measure: Measurement, n: nat)
    requires IsMonotone(measure) && IsSteady(measure)
    ensures GetIntrinsicOverheads(measure).Ok?
    ensures
      var prices := GetIntrinsicOverheads(measure).value;
      CoversGas(measure, prices.txGas, n) && CoversPubdata(measure, prices.txPubdata, n)
  {
  }

  /** Sound: a batch of any size is paid for by its users, the bootloader's share and the intrinsic
      price of every transaction. */
  lemma {:induction false} PricesBoundEveryBatch(measure: Measurement, n: nat)
    requires IsMonotone(measure) && IsSteady(measure)
    ensures GetIntrinsicOverheads(measure).Ok?
    ensures
      var prices := GetIntrinsicOverheads(measure).value;
      && measure(n).gasConsumed <= prices.bootloaderGas + (measure(n).gasPaid - measure(0).gasPaid) + n * prices.txGas
      && measure(n).pubdataPublished <=
           prices.bootloaderPubdata + (measure(n).pubdataPaid - measure(0).pubdataPaid) + n * prices.txPubdata
  {
    if n > 0 {
      var prices := GetIntrinsicOverheads(measure).value;
      PricesBoundEveryBatch(measure, n - 1);
      PricesCover(measure, n - 1);
      var prev, next, start := measure(n - 1), measure(n), measure(0);
      BoundOneMore(prev.gasConsumed, next.gasConsumed, prices.bootloaderGas, prev.gasPaid, next.gasPaid, start.gasPaid,
                   n, prices.txGas);
      BoundOneMore(prev.pubdataPublished, next.pubdataPublished, prices.bootloaderPubdata,
                   prev.pubdataPaid, next.pubdataPaid, start.pubdataPaid, n, prices.txPubdata);
    }
  }

  lemma BoundOneMore(prev: int, next: int, base: int, prevPaid: int, nextPaid: int, startPaid: int, n: int, price: int)
    requires prev <= base + (prevPaid - startPaid) + (n - 1) * price
    requires next - prev <= nextPaid - prevPaid + price
    ensures next <= base + (nextPaid - startPaid) + n * price
  {
  }

  /** Least: the prices that cover every transaction are exactly the ones from the computed price
      on. */
  lemma PricesAreLeast(measure: Measurement, gas: nat, pubdata: nat)
    requires IsMonotone(measure) && IsSteady(measure)
    ensures GetIntrinsicOverheads(measure).Ok?
    ensures
      var prices := GetIntrinsicOverheads(measure).value;
      && ((forall n: nat :: CoversGas(measure, gas, n)) <==> gas >= prices.txGas)
      && ((forall n: nat :: CoversPubdata(measure, pubdata, n)) <==> pubdata >= prices.txPubdata)
  {
    var prices := GetIntrinsicOverheads(measure).value;
    forall n: nat ensures CoversGas(measure, prices.txGas, n) && CoversPubdata(measure, prices.txPubdata, n) {
      PricesCover(measure, n);
    }
    assert NoLess(measure(0), measure(0 + 1)) && NoLess(measure(1), measure(1 + 1));
    if forall n: nat :: CoversGas(measure, gas, n) {
      assert CoversGas(measure, gas, 0) && CoversGas(measure, gas, 1);
    }
    if forall n: nat :: CoversPubdata(measure, pubdata, n) {
      assert CoversPubdata(measure, pubdata, 0) && CoversPubdata(measure, pubdata, 1);
    }
    if gas >= prices.txGas {
      forall n: nat ensures CoversGas(measure, gas, n) {
        assert CoversGas(measure, prices.txGas, n);
      }
    }
    if pubdata >= prices.txPubdata {
      forall n: nat ensures CoversPubdata(measure, pubdata, n) {
        assert CoversPubdata(measure, prices.txPubdata, n);
      }
    }
  }

  /** A share of the bootloader pays, with the users and the intrinsic prices, for batches of every
      size. */
  ghost predicate SharePaysGas(measure: Measurement, share: nat, price: nat) {
    forall n: nat :: measure(n).gasConsumed <= share + (measure(n).gasPaid - measure(0).gasPaid) + n * price
  }

  ghost predicate SharePaysPubdata(measure: Measurement, share: nat, price: nat) {
    forall n: nat :: measure(n).pubdataPublished <= share + (measure(n).pubdataPaid - measure(0).pubdataPaid) + n * price
  }

  /** The shares of the bootloader that pay for batches of every size, the empty one included, are
      exactly the ones from the computed share on. */
  lemma BootloaderShareIsLeast(measure: Measurement, gas: nat, pubdata: nat)
    requires IsMonotone(measure) && IsSteady(measure)
    ensures GetIntrinsicOverheads(measure).Ok?
    ensures
      var prices := GetIntrinsicOverheads(measure).value;
      && (SharePaysGas(measure, gas, prices.txGas) <==> gas >= prices.bootloaderGas)
      && (SharePaysPubdata(measure, pubdata, prices.txPubdata) <==> pubdata >= prices.bootloaderPubdata)
  {
    PricesCover(measure, 0);
    var prices := GetIntrinsicOverheads(measure).value;
    forall n: nat
      ensures measure(n).gasConsumed <= prices.bootloaderGas + (measure(n).gasPaid - measure(0).gasPaid) + n * prices.txGas
      ensures measure(n).pubdataPublished <=
        prices.bootloaderPubdata + (measure(n).pubdataPaid - measure(0).pubdataPaid) + n * prices.txPubdata
    {
      PricesBoundEveryBatch(measure, n);
    }
    if SharePaysGas(measure, gas, prices.txGas) {
      assert measure(0).gasConsumed <= gas + (measure(0).gasPaid - measure(0).gasPaid) + 0 * prices.txGas;
    }
    if SharePaysPubdata(measure, pubdata, prices.txPubdata) {
      assert measure(0).pubdataPublished <= pubdata + (measure(0).pubdataPaid - measure(0).pubdataPaid) + 0 * prices.txPubdata;
    }
  }

  /** The second and the third transaction are covered by the same prices. */
  ghost predicate SameGasPrices(measure: Measurement) {
    forall price: nat :: CoversGas(measure, price, 1) <==> CoversGas(measure, price, 2)
  }

  ghost predicate SamePubdataPrices(measure: Measurement) {
    forall price: nat :: CoversPubdata(measure, price, 1) <==> CoversPubdata(measure, price, 2)
  }

  lemma CoversFromPrice(measure: Measurement, price: nat, n: nat)
    requires NoLess(measure(n), measure(n + 1))
    ensures CoversGas(measure, price, n) <==> GetIntrinsicPrice(measure(n), measure(n + 1)).0 <= price
    ensures CoversPubdata(measure, price, n) <==> GetIntrinsicPrice(measure(n), measure(n + 1)).1 <= price
  {
  }

  /** The sanity check passes exactly when the second and the third transaction are covered by the
      same prices of gas and of pubdata, and complains about gas first. */
  lemma OverheadsFailExactlyWhen(measure: Measurement)
    requires NoLess(measure(0), measure(1)) && NoLess(measure(1), measure(2)) && NoLess(measure(2), measure(3))
    ensures GetIntrinsicOverheads(measure).Ok? <==> SameGasPrices(measure) && SamePubdataPrices(measure)
    ensures GetIntrinsicOverheads(measure) == Err(GasDiffers) <==> !SameGasPrices(measure)
  {
    var second, third := GetIntrinsicPrice(measure(1), measure(2)), GetIntrinsicPrice(measure(2), measure(3));
    forall price: nat
      ensures CoversGas(measure, price, 1) <==> second.0 <= price
      ensures CoversPubdata(measure, price, 1) <==> second.1 <= price
      ensures CoversGas(measure, price, 2) <==> third.0 <= price
      ensures CoversPubdata(measure, price, 2) <==> third.1 <= price
    {
      CoversFromPrice(measure, price, 1);
      CoversFromPrice(measure, price, 2);
    }
    if SameGasPrices(measure) {
      assert CoversGas(measure, second.0, 1) && CoversGas(measure, third.0, 2);
    }
    if SamePubdataPrices(measure) {
      assert CoversPubdata(measure, second.1, 1) && CoversPubdata(measure, third.1, 2);
    }
  }
}
