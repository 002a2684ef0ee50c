/** The per-request payment pipeline of src/verify.ts:53-255: the X-PAYMENT
    header is decoded and verified by the facilitator (`verifyPayment`), the
    decoded authorization is checked against the fixed destination and
    minimum (`checkx402paymentHeader`), the payment is settled, and a paid
    request with a valid payer address enqueues a mint job
    (`processPayment`). Every early exit answers 402.

    The x402 library, the facilitator service and ethers' `isAddress` are
    outcome inputs, bundled in `Facilitator`. */
module PaymentGate {
  import opened Common
  import opened Types
  import opened Units
  import MintQueue

  /** The protocol version the server announces and stamps on decoded payments. */
  const X402_VERSION: int := 1

  /** The address `checkx402paymentHeader` requires as the transfer's recipient. */
  const SETTLE_CONTRACT: string := "0x833589fcd6edb6e08f4c7c32d4f71b54bda02913"

  /** The recipient the payment requirement announces (`payTo`). */
  const PAY_TO: string := "0xe11B1025F25124550E148072a14590D43Fb79625"

  /** The minimum `checkx402paymentHeader` is called with, whatever the route price. */
  const MIN_PAYMENT: nat := 1000

  /** `parseUnits('0.001', 6).toString()`: the USDC amount every job records. */
  const JOB_SETTLE: string := "1000"

  /** What `processPriceToAtomicAmount` gives for a price on base-sepolia. */
  datatype AtomicAmount = AtomicAmount(maxAmountRequired: string, asset: string)

  /** A payment requirement (`createExactPaymentRequirements`). The
      description's text is the formatted `advertisedReward`, in SETTLE
      units of 10^-18. */
  datatype Requirement = Requirement(
    scheme: string, network: string, maxAmountRequired: string, resource: string,
    advertisedReward: int, mimeType: string, payTo: string, maxTimeoutSeconds: nat,
    asset: string, extraName: string, extraVersion: string)

  datatype VerifyResponse = VerifyResponse(isValid: bool, invalidReason: string, payer: string)

  /** The calls out of this code:
      - `decode`: `exact.evm.decodePayment`;
      - `matches`: the test `findMatchingPaymentRequirements` applies;
      - `verify`: the facilitator's verify, given the selected requirement or
        none when the list is empty;
      - `settle`: the facilitator's settle followed by `settleResponseHeader`,
        giving the X-PAYMENT-RESPONSE text;
      - `decodeResponse`: base64 decoding and `JSON.parse` of that text;
      - `priceToAtomic`: `processPriceToAtomicAmount` (None is its error);
      - `isAddress`: ethers' address test. */
  datatype Facilitator = Facilitator(
    decode: string -> Attempt<PaymentHeader>,
    matches: (Requirement, PaymentHeader) -> bool,
    verify: (PaymentHeader, Option<Requirement>) -> Attempt<VerifyResponse>,
    settle: (PaymentHeader, Requirement) -> Attempt<string>,
    decodeResponse: string -> Attempt<SettleResponse>,
    priceToAtomic: string -> Option<AtomicAmount>,
    isAddress: string -> bool)

  /** Why a 402 with a JSON body was sent. */
  datatype ErrorCause = MissingHeader | MalformedHeader | Rejected(reason: string) | FacilitatorError

  /** The JSON body of the 200 answer. */
  datatype Receipt = Receipt(success: bool, payer: string, usdcTx: string, network: string, timestamp: string)

  datatype Response =
    | PaymentRequired(x402Version: int, error: ErrorCause, accepts: seq<Requirement>, payer: Option<string>)
    | BarePaymentRequired
    | Paid(receipt: Receipt, paymentResponse: string)
    | NoResponse

  datatype GateResult = Pass | Fail(response: Response)

  /** The header counts as absent when it is missing or empty. */
  predicate HasHeader(header: Option<string>) {
    header.Some? && header.value != ""
  }

  // ---------------------------------------------------------------------
  // verifyPayment
  // ---------------------------------------------------------------------

  /** `findMatchingPaymentRequirements`: the first requirement that matches. */
  function FindMatching(fac: Facilitator, reqs: seq<Requirement>, h: PaymentHeader): (r: Option<Requirement>)
    ensures r.Some? ==> r.value in reqs && fac.matches(r.value, h)
    ensures r.None? ==> forall i :: 0 <= i < |reqs| ==> !fac.matches(reqs[i], h)
    ensures r.Some? ==>
      exists i :: 0 <= i < |reqs| && reqs[i] == r.value && forall j :: 0 <= j < i ==> !fac.matches(reqs[j], h)
  {
    if reqs == [] then None
    else if fac.matches(reqs[0], h) then Some(reqs[0])
    else
      var r := FindMatching(fac, reqs[1..], h);
      if r.Some? then
        var i :| 0 <= i < |reqs[1..]| && reqs[1..][i] == r.value
          && forall j :: 0 <= j < i ==> !fac.matches(reqs[1..][j], h);
        assert reqs[i + 1] == r.value;
        assert forall j :: 0 <= j < i + 1 ==> !fac.matches(reqs[j], h) by {
          forall j | 0 <= j < i + 1
            ensures !fac.matches(reqs[j], h)
          {
            if j > 0 { assert reqs[j] == reqs[1..][j - 1]; }
          }
        }
        r
      else
        assert forall i :: 0 <= i < |reqs| ==> (i == 0 || reqs[i] == reqs[1..][i - 1]);
        r
  }

  /** The requirement handed to `verify`: the matching one, else the first. */
  function SelectRequirement(fac: Facilitator, reqs: seq<Requirement>, h: PaymentHeader): (r: Option<Requirement>)
    ensures r.None? <==> reqs == []
    ensures r.Some? ==> r.value in reqs
    ensures r.Some? && !fac.matches(r.value, h) ==> r.value == reqs[0]
    ensures (exists i :: 0 <= i < |reqs| && fac.matches(reqs[i], h)) ==> r.Some? && fac.matches(r.value, h)
  {
    var m := FindMatching(fac, reqs, h);
    if m.Some? then m
    else if reqs == [] then None
    else Some(reqs[0])
  }

  /** `verifyPayment(req, res, reqs, 1)`: Pass is `true`; Fail carries the 402
      answer it wrote. */
  function VerifyPayment(fac: Facilitator, header: Option<string>, reqs: seq<Requirement>): (r: GateResult)
    // every refusal is a 402 that lists the requirements
    ensures r.Fail? ==>
      r.response.PaymentRequired? && r.response.x402Version == X402_VERSION && r.response.accepts == reqs
    // an absent header is refused before decoding
    ensures !HasHeader(header) ==> r == Fail(PaymentRequired(X402_VERSION, MissingHeader, reqs, None))
    // a header that does not decode is refused before the facilitator is asked
    ensures HasHeader(header) && fac.decode(header.value).Threw? ==>
      r == Fail(PaymentRequired(X402_VERSION, MalformedHeader, reqs, None))
    // it passes exactly when the facilitator says valid for the decoded
    // payment, stamped with version 1, against the selected requirement
    ensures r.Pass? <==>
      && HasHeader(header) && fac.decode(header.value).Ok?
      && var h := fac.decode(header.value).value.(x402Version := X402_VERSION);
         fac.verify(h, SelectRequirement(fac, reqs, h)).Ok?
         && fac.verify(h, SelectRequirement(fac, reqs, h)).value.isValid
    // an invalid verdict is reported with its reason and payer
    ensures r.Fail? && r.response.error.Rejected? ==>
      && HasHeader(header) && fac.decode(header.value).Ok?
      && var h := fac.decode(header.value).value.(x402Version := X402_VERSION);
         var v := fac.verify(h, SelectRequirement(fac, reqs, h));
         v.Ok? && !v.value.isValid && r.response.error.reason == v.value.invalidReason
         && r.response.payer == Some(v.value.payer)
  {
    if !HasHeader(header) then Fail(PaymentRequired(X402_VERSION, MissingHeader, reqs, None))
    else match fac.decode(header.value)
      case Threw => Fail(PaymentRequired(X402_VERSION, MalformedHeader, reqs, None))
      case Ok(decoded) =>
        var h := decoded.(x402Version := X402_VERSION);
        match fac.verify(h, SelectRequirement(fac, reqs, h))
        case Threw => Fail(PaymentRequired(X402_VERSION, FacilitatorError, reqs, None))
        case Ok(v) =>
          if v.isValid then Pass
          else Fail(PaymentRequired(X402_VERSION, Rejected(v.invalidReason), reqs, Some(v.payer)))
  }

  // ---------------------------------------------------------------------
  // checkx402paymentHeader
  // ---------------------------------------------------------------------

  /** The destination and amount test, for a given recipient. */
  predicate PaysAtLeast(h: PaymentHeader, recipient: string, amount: nat)
    // a missing or non-numeric value never passes
    ensures PaysAtLeast(h, recipient, amount) ==>
      h.payload.authorization.value != "" && AllDigits(h.payload.authorization.value)
    // the recipient is compared ignoring ASCII case
    ensures PaysAtLeast(h, recipient, amount) ==> Lower(h.payload.authorization.to) == Lower(recipient)
    // the minimum is a lower bound: passing it passes every lower one
    ensures PaysAtLeast(h, recipient, amount) ==> forall b: nat :: b <= amount ==> PaysAtLeast(h, recipient, b)
  {
    && Lower(h.payload.authorization.to) == Lower(recipient)
    && match ParseDecimal(h.payload.authorization.value)
       case None => false
       case Some(v) => v >= amount
  }

  /** `checkx402paymentHeader(h, amount)`: the transfer goes to the SETTLE
      contract address (case-insensitively) and its value is a numeral of at
      least `amount`. */
  function CheckPaymentHeader(h: PaymentHeader, amount: nat): (ok: bool)
    ensures ok ==> Lower(h.payload.authorization.to) == Lower(SETTLE_CONTRACT)
    ensures ok ==> h.payload.authorization.value != "" && AllDigits(h.payload.authorization.value)
    ensures ok <==> && Lower(h.payload.authorization.to) == Lower(SETTLE_CONTRACT)
                    && ParseDecimal(h.payload.authorization.value).Some?
                    && ParseDecimal(h.payload.authorization.value).value >= amount
  {
    PaysAtLeast(h, SETTLE_CONTRACT, amount)
  }

  function WithTransfer(h: PaymentHeader, to: string, value: string): PaymentHeader {
    h.(payload := h.payload.(authorization := h.payload.authorization.(to := to, value := value)))
  }

  /** A transfer of `n` units, written as the numeral of `n`, to the SETTLE
      contract in any letter case passes exactly when `n` reaches the minimum. */
  lemma CheckAcceptsExactly(h: PaymentHeader, to: string, n: nat, amount: nat)
    requires Lower(to) == Lower(SETTLE_CONTRACT)
    ensures CheckPaymentHeader(WithTransfer(h, to, DecimalString(n)), amount) <==> n >= amount
  {
    DecimalRoundTrip(n);
  }

  /** With the minimum 1000: "999" is refused, "1000" accepted, and a
      missing value or a transfer elsewhere is refused. */
  lemma CheckExamples(h: PaymentHeader)
    ensures !CheckPaymentHeader(WithTransfer(h, SETTLE_CONTRACT, "999"), MIN_PAYMENT)
    ensures CheckPaymentHeader(WithTransfer(h, SETTLE_CONTRACT, "1000"), MIN_PAYMENT)
    ensures !CheckPaymentHeader(WithTransfer(h, SETTLE_CONTRACT, ""), MIN_PAYMENT)
    ensures !CheckPaymentHeader(WithTransfer(h, PAY_TO, "1000"), MIN_PAYMENT)
  {
    assert DigitsValue("999") == 999 by {
      assert "999"[..2] == "99";
      assert "99"[..1] == "9";
    }
    assert DigitsValue("1000") == 1000 by {
      assert "1000"[..3] == "100";
      assert "100"[..2] == "10";
      assert "10"[..1] == "1";
    }
    SettleContractIsNotPayTo();
  }

  // ---------------------------------------------------------------------
  // processPayment
  // ---------------------------------------------------------------------

  /** `createExactPaymentRequirements` after `parseUnits(price, 6)`: None
      exactly when either throws. */
  function RequirementFor(fac: Facilitator, price: string, resource: string): (r: Option<Requirement>)
    ensures r.Some? <==> ParseUnits(price, USDC_DECIMALS).Some? && fac.priceToAtomic(price).Some?
    ensures r.Some? ==> && r.value.scheme == "exact" && r.value.network == "base-sepolia"
                        && r.value.payTo == PAY_TO && r.value.maxTimeoutSeconds == 10
                        && r.value.resource == resource && r.value.mimeType == "application/json"
                        && r.value.maxAmountRequired == fac.priceToAtomic(price).value.maxAmountRequired
                        && r.value.asset == fac.priceToAtomic(price).value.asset
                        && r.value.extraName == "USDC" && r.value.extraVersion == "2"
                        && r.value.advertisedReward == AdvertisedReward(ParseUnits(price, USDC_DECIMALS).value)
  {
    match ParseUnits(price, USDC_DECIMALS)
    case None => None
    case Some(usdc) =>
      match fac.priceToAtomic(price)
      case None => None
      case Some(a) =>
        Some(Requirement("exact", "base-sepolia", a.maxAmountRequired, resource,
                         AdvertisedReward(usdc), "application/json", PAY_TO, 10,
                         a.asset, "USDC", "2"))
  }

  /** The request got past `verifyPayment`: the price converts and the
      facilitator found the decoded payment valid. */
  predicate PassesVerification(fac: Facilitator, resource: string, header: Option<string>, price: string) {
    && RequirementFor(fac, price, resource).Some?
    && VerifyPayment(fac, header, [RequirementFor(fac, price, resource).value]).Pass?
    && HasHeader(header) && fac.decode(header.value).Ok?
  }

  /** Settle returns a response header whose decoded body reports success. */
  predicate SettlesOk(fac: Facilitator, h: PaymentHeader, req: Requirement) {
    && fac.settle(h, req).Ok?
    && fac.decodeResponse(fac.settle(h, req).value).Ok?
    && fac.decodeResponse(fac.settle(h, req).value).value.success
  }

  /** The answer to a request and the job it enqueues, if any. */
  datatype Outcome = Outcome(response: Response, job: Option<Job>)

  /** `processPayment` with the recipient its header check demands as a
      parameter; `now` is the ISO timestamp of the answer. */
  function HandlePaymentTo(fac: Facilitator, recipient: string, resource: string,
                           header: Option<string>, price: string, now: string): (o: Outcome)
    // a price that does not convert: the handler throws before answering
    ensures RequirementFor(fac, price, resource).None? ==> o == Outcome(NoResponse, None)
    // a failed verification is answered by the 402 it wrote, with no job
    ensures RequirementFor(fac, price, resource).Some? ==>
      var reqs := [RequirementFor(fac, price, resource).value];
      VerifyPayment(fac, header, reqs).Fail? ==> o == Outcome(VerifyPayment(fac, header, reqs).response, None)
    // 200 only after verification, the header check and a successful settle
    ensures o.response.Paid? ==>
      && RequirementFor(fac, price, resource).Some?
      && VerifyPayment(fac, header, [RequirementFor(fac, price, resource).value]).Pass?
      && HasHeader(header) && fac.decode(header.value).Ok?
      && PaysAtLeast(fac.decode(header.value).value, recipient, MIN_PAYMENT)
      && var t := fac.settle(fac.decode(header.value).value, RequirementFor(fac, price, resource).value);
         && t.Ok? && o.response.paymentResponse == t.value
         && fac.decodeResponse(t.value).Ok?
         && fac.decodeResponse(t.value).value.success
         && o.response.receipt == Receipt(true, fac.decodeResponse(t.value).value.payer,
                                          fac.decodeResponse(t.value).value.transaction,
                                          fac.decodeResponse(t.value).value.network, now)
    // a verified payment that fails the header check gets a bare 402 and no
    // job, whatever settle would have said
    ensures PassesVerification(fac, resource, header, price)
         && !PaysAtLeast(fac.decode(header.value).value, recipient, MIN_PAYMENT)
         ==> o == Outcome(BarePaymentRequired, None)
    // a verified payment that passes it and settles is answered 200 with the
    // settle details and the response header
    ensures PassesVerification(fac, resource, header, price)
         && PaysAtLeast(fac.decode(header.value).value, recipient, MIN_PAYMENT)
         && SettlesOk(fac, fac.decode(header.value).value, RequirementFor(fac, price, resource).value)
         ==> var text := fac.settle(fac.decode(header.value).value, RequirementFor(fac, price, resource).value).value;
             var sr := fac.decodeResponse(text).value;
             o.response == Paid(Receipt(true, sr.payer, sr.transaction, sr.network, now), text)
    // a job only for a paid request with a valid payer, always for 0.001 USDC
    ensures o.job.Some? <==> o.response.Paid? && fac.isAddress(o.response.receipt.payer)
    ensures o.job.Some? ==> o.job.value == Job(o.response.receipt.payer, JOB_SETTLE)
  {
    match RequirementFor(fac, price, resource)
    case None => Outcome(NoResponse, None)
    case Some(req) =>
      match VerifyPayment(fac, header, [req])
      case Fail(response) => Outcome(response, None)
      case Pass =>
        var h := fac.decode(header.value).value;
        if !PaysAtLeast(h, recipient, MIN_PAYMENT) then Outcome(BarePaymentRequired, None)
        else match fac.settle(h, req)
          case Threw => Outcome(BarePaymentRequired, None)
          case Ok(text) =>
            match fac.decodeResponse(text)
            case Threw => Outcome(BarePaymentRequired, None)
            case Ok(sr) =>
              if !sr.success then Outcome(BarePaymentRequired, None)
              else
                var receipt := Receipt(true, sr.payer, sr.transaction, sr.network, now);
                Outcome(Paid(receipt, text),
                        if fac.isAddress(sr.payer) then Some(Job(sr.payer, JOB_SETTLE)) else None)
  }

  /** `processPayment` as written: the header check demands the SETTLE
      contract as recipient. */
  function HandlePayment(fac: Facilitator, resource: string, header: Option<string>,
                         price: string, now: string): (o: Outcome)
    ensures o.response.Paid? ==>
      HasHeader(header) && fac.decode(header.value).Ok? && CheckPaymentHeader(fac.decode(header.value).value, MIN_PAYMENT)
    ensures o.job.Some? ==> o.response.Paid? && fac.isAddress(o.job.value.wallet)
  {
    HandlePaymentTo(fac, SETTLE_CONTRACT, resource, header, price, now)
  }

  /** Settling stops at a failed settle: a thrown settle, an unreadable
      response or `success: false` each answer a bare 402 with no
      X-PAYMENT-RESPONSE and no job. */
  lemma SettleFailureIsBare(fac: Facilitator, resource: string, header: Option<string>, price: string, now: string)
    requires RequirementFor(fac, price, resource).Some?
    requires VerifyPayment(fac, header, [RequirementFor(fac, price, resource).value]).Pass?
    requires CheckPaymentHeader(fac.decode(header.value).value, MIN_PAYMENT)
    requires var t := fac.settle(fac.decode(header.value).value, RequirementFor(fac, price, resource).value);
      t.Threw? || fac.decodeResponse(t.value).Threw? || !fac.decodeResponse(t.value).value.success
    ensures HandlePayment(fac, resource, header, price, now) == Outcome(BarePaymentRequired, None)
  {
  }

  /** The header check uses the fixed minimum of 1000 units, not the route
      price: on the 100 USDC route (10^8 units) a verified, settled transfer
      of 1000 units to the SETTLE contract is answered 200 and queues a job
      for a valid payer. */
  lemma FixedMinimumNotRoutePrice(fac: Facilitator, resource: string, payment: string, now: string)
    requires payment != "" && fac.decode(payment).Ok?
    requires fac.decode(payment).value.payload.authorization.to == SETTLE_CONTRACT
    requires fac.decode(payment).value.payload.authorization.value == "1000"
    requires RequirementFor(fac, "100.00", resource).Some?
    requires var h := fac.decode(payment).value.(x402Version := X402_VERSION);
      var v := fac.verify(h, Some(RequirementFor(fac, "100.00", resource).value));
      v.Ok? && v.value.isValid
    requires SettlesOk(fac, fac.decode(payment).value, RequirementFor(fac, "100.00", resource).value)
    ensures ParseUnits("100.00", USDC_DECIMALS) == Some(100_000_000)
    ensures var o := HandlePayment(fac, resource, Some(payment), "100.00", now);
      && o.response.Paid?
      && (fac.isAddress(o.response.receipt.payer) ==> o.job == Some(Job(o.response.receipt.payer, JOB_SETTLE)))
  {
    Price100();
    var d := fac.decode(payment).value;
    var req := RequirementFor(fac, "100.00", resource).value;
    assert SelectRequirement(fac, [req], d.(x402Version := X402_VERSION)) == Some(req);
    ThousandToSettleContractPasses(d);
  }

  lemma ThousandToSettleContractPasses(d: PaymentHeader)
    requires d.payload.authorization.to == SETTLE_CONTRACT && d.payload.authorization.value == "1000"
    ensures PaysAtLeast(d, SETTLE_CONTRACT, MIN_PAYMENT)
  {
    CheckExamples(d);
    assert WithTransfer(d, SETTLE_CONTRACT, "1000") == d;
  }

  /** The USDC amount every job records is the 0.001 USDC price in atomic
      units, printed in decimal, and its entry records 7 SETTLE. */
  lemma JobAmountIsOneTenthCent()
    ensures ParseUnits("0.001", USDC_DECIMALS) == Some(1000)
    ensures DecimalString(1000) == JOB_SETTLE
    ensures ParseBigInt(JOB_SETTLE) == Some(1000)
    ensures MintedReward(1000) == 7 * 1_000_000_000_000_000_000
  {
    Price0001();
    JobSettleIsPrinted();
    MintQueue.PaidJobRecordsSevenSettle("", "", "");
  }

  lemma JobSettleIsPrinted()
    ensures DecimalString(1000) == JOB_SETTLE
  {
    assert DecimalString(1) == "1";
    assert DecimalString(10) == "10";
    assert DecimalString(100) == "100";
  }

  // ---------------------------------------------------------------------
  // Recipient mismatch
  // ---------------------------------------------------------------------

  /** The facilitator accepts an authorization only when it pays the
      requirement's `payTo`. */
  ghost predicate ChecksRecipient(fac: Facilitator) {
    forall h: PaymentHeader, r: Requirement ::
      fac.verify(h, Some(r)).Ok? && fac.verify(h, Some(r)).value.isValid
      ==> Lower(h.payload.authorization.to) == Lower(r.payTo)
  }

  /** The two addresses differ in their third character ('8' against 'e'). */
  lemma SettleContractIsNotPayTo()
    ensures Lower(SETTLE_CONTRACT) != Lower(PAY_TO)
  {
    assert SETTLE_CONTRACT[2] == '8' && PAY_TO[2] == 'e';
    assert Lower(SETTLE_CONTRACT)[2] == LowerChar(SETTLE_CONTRACT[2]) == '8';
    assert Lower(PAY_TO)[2] == LowerChar(PAY_TO[2]) == 'e';
  }

  /** As written: with a facilitator that checks the recipient, no request
      is ever paid and no job is ever queued, because verification demands
      `payTo` as recipient while the header check demands the SETTLE
      contract. */
  lemma NeverPaidWhenRecipientChecked(fac: Facilitator, resource: string, header: Option<string>,
                                      price: string, now: string)
    requires ChecksRecipient(fac)
    ensures !HandlePayment(fac, resource, header, price, now).response.Paid?
    ensures HandlePayment(fac, resource, header, price, now).job.None?
  {
    var o := HandlePayment(fac, resource, header, price, now);
    if o.response.Paid? {
      var req := RequirementFor(fac, price, resource).value;
      var d := fac.decode(header.value).value;
      var h := d.(x402Version := X402_VERSION);
      assert SelectRequirement(fac, [req], h) == Some(req);
      assert Lower(h.payload.authorization.to) == Lower(PAY_TO);
      assert h.payload == d.payload;
      SettleContractIsNotPayTo();
      assert false;
    }
  }

  /** Corrected: the header check demands the announced `payTo`. */
  function HandlePaymentCorrected(fac: Facilitator, resource: string, header: Option<string>,
                                  price: string, now: string): (o: Outcome)
    ensures o.response.Paid? ==>
      HasHeader(header) && fac.decode(header.value).Ok? && PaysAtLeast(fac.decode(header.value).value, PAY_TO, MIN_PAYMENT)
    ensures o.job.Some? ==> o.response.Paid? && fac.isAddress(o.job.value.wallet)
  {
    HandlePaymentTo(fac, PAY_TO, resource, header, price, now)
  }

  /** With the corrected check, a payment of at least 1000 units to `payTo`
      that the facilitator verifies and settles is answered 200, and a job is
      queued for a valid payer. */
  lemma CorrectedPaysVerifiedTransfer(fac: Facilitator, resource: string, payment: string,
                                      price: string, now: string)
    requires payment != ""
    requires RequirementFor(fac, price, resource).Some?
    requires fac.decode(payment).Ok?
    requires PaysAtLeast(fac.decode(payment).value, PAY_TO, MIN_PAYMENT)
    requires var h := fac.decode(payment).value.(x402Version := X402_VERSION);
      var v := fac.verify(h, Some(RequirementFor(fac, price, resource).value));
      v.Ok? && v.value.isValid
    requires var t := fac.settle(fac.decode(payment).value, RequirementFor(fac, price, resource).value);
      t.Ok? && fac.decodeResponse(t.value).Ok? && fac.decodeResponse(t.value).value.success
    ensures var o := HandlePaymentCorrected(fac, resource, Some(payment), price, now);
      && o.response.Paid?
      && (fac.isAddress(o.response.receipt.payer) ==> o.job == Some(Job(o.response.receipt.payer, JOB_SETTLE)))
  {
    var req := RequirementFor(fac, price, resource).value;
    var h := fac.decode(payment).value.(x402Version := X402_VERSION);
    assert SelectRequirement(fac, [req], h) == Some(req);
  }

  /** `processPayment` against the live queue: answers the request and pushes
      the job, if any, onto the mint queue. */
  method ProcessPayment(svc: MintQueue.MintService, fac: Facilitator, resource: string,
                        header: Option<string>, price: string, now: string) returns (response: Response)
    modifies svc
    ensures response == HandlePayment(fac, resource, header, price, now).response
    ensures var job := HandlePayment(fac, resource, header, price, now).job;
      svc.State() == if job.Some? then old(svc.State()).(jobs := old(svc.jobs) + [job.value])
                     else old(svc.State())
  {
    var o := HandlePayment(fac, resource, header, price, now);
    if o.job.Some? {
      svc.Enqueue(o.job.value);
    }
    response := o.response;
  }
}
