/** The record shapes the payment server exchanges (src/types.d.ts). */
module Types {

  /** One completed settlement as it appears in a recent-entry window and in
      the ledger file (`ReflashData`). An absent or empty `hash` is the empty
      string. */
  datatype Record = Record(hash: string, wallet: string, settle: string, usdc: string, timestamp: string)

  /** A queued mint job (`airDrop`): the payer and the settled amount in
      atomic USDC units, as a decimal string. */
  datatype Job = Job(wallet: string, settle: string)

  /** The signed EIP-3009 transfer authorization carried in the payment header. */
  datatype Authorization = Authorization(
    from: string, to: string, value: string,
    validAfter: string, validBefore: string, nonce: string)

  datatype Payload = Payload(signature: string, authorization: Authorization)

  /** The decoded `X-PAYMENT` header (`x402paymentHeader`). */
  datatype PaymentHeader = PaymentHeader(x402Version: int, scheme: string, network: string, payload: Payload)

  /** The facilitator's decoded settlement result (`x402SettleResponse`). */
  datatype SettleResponse = SettleResponse(network: string, payer: string, success: bool, transaction: string)
}
