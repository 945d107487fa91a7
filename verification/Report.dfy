/**
 The signed report's codec (packages/attestor-client/src/report.ts): epoch
 arithmetic, the observation clamp, the bytes32 SKU and the report builder.
 Signatures and hashes are opaque and left to the caller.
 */
module Report {
  import opened Wrappers
  import opened IntegerArithmetic
  import opened OrderStatistics
  import opened Rounding

  type Byte = b: int | 0 <= b < 256

  datatype ReportV1 = ReportV1(
    gpuId: seq<Byte>, price: int, observedAt: int, epoch: int, validFrom: int, validUntil: int, calcHash: string)

  // ------------------------------------------------------------------- epochs

  /** Observation time in seconds, clamped so that it never lies in the future. */
  function ObservationSeconds(computedAtMs: int, nowMs: int): int {
    (if computedAtMs <= nowMs then computedAtMs else nowMs) / 1000
  }

  function EpochOf(unixSec: int, epochLength: int): Result<int> {
    if epochLength <= 0 then Failure("epochLength must be a positive integer")
    else if unixSec < 0 then Failure("unixSec must be a non-negative integer")
    else Success(unixSec / epochLength)
  }

  /** An epoch is exactly the seconds that map to it: half-open, back to back. */
  lemma EpochInterval(unixSec: int, epochLength: int, epoch: int)
    requires EpochOf(unixSec, epochLength).Success?
    ensures EpochOf(unixSec, epochLength).value == epoch <==> epoch * epochLength <= unixSec < epoch * epochLength + epochLength
  {
    DivisionBounds(unixSec, epochLength);
    assert Mul(epochLength, Floor(unixSec, epochLength)) == Floor(unixSec, epochLength) * epochLength;
    if epoch * epochLength <= unixSec < epoch * epochLength + epochLength {
      assert Mul(epochLength, epoch) == epoch * epochLength;
      FloorUnique(unixSec, epochLength, epoch);
    }
  }

  // -------------------------------------------------------------- SKU bytes32

  predicate Printable(c: char) { 0x21 <= c as int <= 0x7e }

  predicate ValidSku(sku: string) {
    1 <= |sku| <= 32 && forall i :: 0 <= i < |sku| ==> Printable(sku[i])
  }

  /** The SKU's bytes, left aligned in 32 zero-padded bytes. */
  method EncodeGpuId(sku: string) returns (r: Result<seq<Byte>>)
    ensures r.Success? <==> ValidSku(sku)
    ensures r.Success? ==> r.value == Encoded(sku)
  {
    if |sku| < 1 || |sku| > 32 { return Failure("gpuId must be 1-32 bytes"); }
    var bytes := new Byte[32](_ => 0);
    for i := 0 to |sku|
      invariant forall k :: 0 <= k < i ==> Printable(sku[k]) && bytes[k] == sku[k] as int
      invariant forall k :: i <= k < 32 ==> bytes[k] == 0
    {
      var code := sku[i] as int;
      if code < 0x21 || code > 0x7e { return Failure("gpuId byte is not printable ASCII"); }
      bytes[i] := code;
    }
    r := Success(bytes[..]);
  }

  function Encoded(sku: string): (r: seq<Byte>)
    requires ValidSku(sku)
    ensures |r| == 32
  {
    seq(32, i requires 0 <= i < 32 => if i < |sku| then sku[i] as int else 0)
  }

  /** The bytes up to the first zero. */
  function Payload(id: seq<Byte>): seq<Byte> {
    if id == [] || id[0] == 0 then [] else [id[0]] + Payload(id[1..])
  }

  predicate Decodes(id: seq<Byte>, sku: string) {
    sku != [] && |sku| == |Payload(id)| && forall i :: 0 <= i < |sku| ==> Printable(sku[i]) && sku[i] as int == Payload(id)[i]
  }

  /** Reads the bytes back up to the zero padding; refuses anything unprintable or empty. */
  method DecodeGpuId(id: seq<Byte>) returns (r: Result<string>)
    ensures r.Success? ==> Decodes(id, r.value)
    ensures r.Failure? ==> forall sku :: !Decodes(id, sku)
  {
    var out := "";
    var i := 0;
    while i < |id| && id[i] != 0
      invariant 0 <= i <= |id| && |out| == i
      invariant forall k :: 0 <= k < i ==> id[k] != 0 && Printable(out[k]) && out[k] as int == id[k]
    {
      if id[i] < 0x21 || id[i] > 0x7e {
        PayloadPrefix(id, i);
        PayloadTail(id, i);
        return Failure("gpuId byte is not printable ASCII");
      }
      out := out + [id[i] as char];
      i := i + 1;
    }
    PayloadPrefix(id, i);
    PayloadTail(id, i);
    if |out| < 1 { return Failure("gpuId is empty"); }
    r := Success(out);
  }

  lemma {:induction false} PayloadPrefix(id: seq<Byte>, n: nat)
    requires n <= |id| && forall k :: 0 <= k < n ==> id[k] != 0
    ensures |Payload(id)| >= n && Payload(id)[..n] == id[..n]
  {
    if n > 0 { PayloadPrefix(id[1..], n - 1); }
  }

  lemma {:induction false} PayloadTail(id: seq<Byte>, n: nat)
    requires n <= |id| && forall k :: 0 <= k < n ==> id[k] != 0
    ensures n == |id| || id[n] == 0 ==> |Payload(id)| == n
    ensures n < |id| && id[n] != 0 ==> |Payload(id)| > n && Payload(id)[n] == id[n]
  {
    if n > 0 { PayloadTail(id[1..], n - 1); }
  }

  /** Decoding undoes encoding, and only the encoded SKU decodes from it. */
  lemma SkuRoundTrip(sku: string, other: string)
    requires ValidSku(sku)
    ensures Decodes(Encoded(sku), other) <==> other == sku
  {
    var id := Encoded(sku);
    PayloadPrefix(id, |sku|);
    PayloadTail(id, |sku|);
    assert Payload(id) == id[..|sku|];
    if Decodes(id, other) {
      forall i | 0 <= i < |sku| ensures other[i] == sku[i] { assert other[i] as int == sku[i] as int; }
    }
  }

  // -------------------------------------------------------------------- price

  /** USD per GPU-hour as a positive count of ten-thousandths; anything off the grid is refused. */
  function PriceToScaled(price: real): Result<int> {
    var exact := price * 10000.0;
    if price <= 0.0 then Failure("price must be a positive finite number")
    else if Round(exact) == 0 then Failure("price scales to 0")
    else if Abs(exact - Round(exact) as real) > 0.000001 then Failure("price is not a 4-decimal value")
    else Success(Round(exact))
  }

  /** Ten thousand times the price is `scaled`, up to float noise. */
  predicate Scales(price: real, scaled: int) { scaled > 0 && Abs(price * 10000.0 - scaled as real) <= 0.000001 }

  /** A whole number within float noise of a figure is what the figure rounds to. */
  lemma NearInteger(exact: real, n: int)
    requires Abs(exact - n as real) <= 0.000001
    ensures Round(exact) == n
  {
    assert n as real <= exact + 0.5 < n as real + 1.0;
  }

  lemma ScalesOnGrid(price: real)
    requires price > 0.0 && Round4(price) == price
    ensures Scales(price, Round(price * 10000.0))
  {
    var n := Round(price * 10000.0);
    assert price * 10000.0 == n as real;
    assert n > 0;
  }

  /** The scaled price is the one positive count of ten-thousandths within float noise of the price; without one it throws. */
  lemma ScaledPriceFaithful(price: real, scaled: int)
    ensures PriceToScaled(price) == Success(scaled) <==> Scales(price, scaled)
    ensures price > 0.0 && Round4(price) == price ==> PriceToScaled(price).Success?
  {
    if price > 0.0 && Round4(price) == price { ScalesOnGrid(price); }
    hide Round, Round4;
    var n := Round(price * 10000.0);
    if Scales(price, scaled) { NearInteger(price * 10000.0, scaled); }
    if Scales(price, n) { NearInteger(price * 10000.0, n); }
    NonPositiveRounds(price * 10000.0);
  }

  lemma NonPositiveRounds(exact: real)
    ensures exact <= 0.0 ==> Round(exact) <= 0
    ensures exact > 0.0 ==> Round(exact) >= 0
  {
  }

  // ------------------------------------------------------------------ reports

  datatype ReportParams = ReportParams(
    sku: string, price: real, observedAtSec: int, nowSec: int, epochLength: int, maxObservationAge: int, calcHash: string)

  function BuildReport(p: ReportParams): Result<ReportV1> {
    if p.maxObservationAge < p.epochLength then Failure("maxObservationAge must be >= epochLength")
    else if p.nowSec - p.observedAtSec > p.maxObservationAge then Failure("observation is stale")
    else
      var observedAt := ObservationSeconds(p.observedAtSec * 1000, p.nowSec * 1000);
      var epoch := EpochOf(p.nowSec, p.epochLength);
      if epoch.Failure? then Failure(epoch.error)
      else if !ValidSku(p.sku) then Failure("gpuId is not a valid SKU")
      else
        var price := PriceToScaled(p.price);
        if price.Failure? then Failure(price.error)
        else
          var validFrom := epoch.value * p.epochLength;
          Success(ReportV1(Encoded(p.sku), price.value, observedAt, epoch.value, validFrom, validFrom + p.epochLength, p.calcHash))
  }

  /** A report is honest about `nowSec`: inside its validity window and its observation floor, never from the future. */
  predicate Honest(observedAt: int, epoch: int, validFrom: int, validUntil: int, nowSec: int, epochLength: int, maxAge: int) {
    epochLength > 0 && validFrom == epoch * epochLength && validUntil == validFrom + epochLength &&
    validFrom <= nowSec < validUntil && 0 <= nowSec - observedAt <= maxAge
  }

  lemma ReportIsHonest(p: ReportParams)
    requires BuildReport(p).Success?
    ensures var r := BuildReport(p).value;
      Honest(r.observedAt, r.epoch, r.validFrom, r.validUntil, p.nowSec, p.epochLength, p.maxObservationAge)
  {
    EpochInterval(p.nowSec, p.epochLength, p.nowSec / p.epochLength);
  }

  /**
   A report says what it was built from: ten thousand times the price within float
   noise, the observation or the clock if that is earlier, the digest, and an id
   that decodes to the SKU and to nothing else.
   */
  lemma ReportIsFaithful(p: ReportParams)
    requires BuildReport(p).Success?
    ensures var r := BuildReport(p).value;
      Scales(p.price, r.price) &&
      r.observedAt == (if p.observedAtSec <= p.nowSec then p.observedAtSec else p.nowSec) &&
      r.calcHash == p.calcHash && forall sku :: Decodes(r.gpuId, sku) <==> sku == p.sku
  {
    ScaledPriceFaithful(p.price, BuildReport(p).value.price);
    hide Encoded, Decodes;
    forall sku ensures Decodes(BuildReport(p).value.gpuId, sku) <==> sku == p.sku { SkuRoundTrip(p.sku, sku); }
  }

  /** It builds exactly when the floor covers an epoch and the observation, the SKU encodes and the price lies on the grid. */
  lemma ReportBuildsExactly(p: ReportParams)
    ensures BuildReport(p).Success? <==>
      p.epochLength <= p.maxObservationAge && p.nowSec - p.observedAtSec <= p.maxObservationAge &&
      p.epochLength > 0 && p.nowSec >= 0 && ValidSku(p.sku) &&
      exists scaled :: Scales(p.price, scaled)
  {
    hide PriceToScaled, Scales;
    if PriceToScaled(p.price).Success? { ScaledPriceFaithful(p.price, PriceToScaled(p.price).value); }
    forall scaled | Scales(p.price, scaled) ensures PriceToScaled(p.price) == Success(scaled) {
      ScaledPriceFaithful(p.price, scaled);
    }
  }
}
