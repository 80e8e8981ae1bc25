/**
 * The body of `POST /pledgesDB` as `express.json()` hands it to the handler,
 * and the two input checks the handler makes before it touches the database.
 */
module PledgeRequest {

  /** A JSON value; `Absent` is a member the body does not have (`undefined`).
      A number is an exact real: `JSON.parse` turns a literal too large for a
      double into `Infinity`, which this type cannot hold. */
  datatype Json = Absent | Null | Bool(b: bool) | Num(x: real) | Str(s: string) | ArrayOrObject

  /** JavaScript's `!v`: the falsy values are undefined, null, false, 0 and "". */
  predicate Falsy(v: Json)
  {
    match v
    case Absent => true
    case Null => true
    case Bool(b) => !b
    case Num(x) => x == 0.0
    case Str(s) => s == ""
    case ArrayOrObject => false
  }

  /** The three members the handler destructures from the body. */
  datatype Body = Body(publicKey: Json, amount: Json, walletBalance: Json)

  /** Bodies the model follows past both checks: when `publicKey` and `amount`
      are truthy and `walletBalance` is a number, the key is a string and the
      amount a number. Every other body is answered 400 before any sum. */
  predicate Typed(b: Body)
  {
    !Falsy(b.publicKey) && !Falsy(b.amount) && b.walletBalance.Num? ==>
      b.publicKey.Str? && b.amount.Num?
  }

  /** The two 400 answers given before any storage call. */
  datatype Rejection = MissingField | BadBalance

  datatype Checked =
    | Rejected(reason: Rejection)
    | Accepted(key: string, amount: real, balance: real)

  /** `if (!publicKey || !amount)`, then `if (typeof walletBalance !== 'number')`. */
  function Check(b: Body): (r: Checked)
    requires Typed(b)
    // the required-fields test comes first, whatever walletBalance is
    ensures Falsy(b.publicKey) || Falsy(b.amount) ==> r == Rejected(MissingField)
    ensures r == Rejected(BadBalance) <==>
              !Falsy(b.publicKey) && !Falsy(b.amount) && !b.walletBalance.Num?
    // what gets through: a non-empty key, a non-zero amount and a numeric balance
    ensures r.Accepted? <==>
              && b.publicKey.Str? && b.publicKey.s != ""
              && b.amount.Num? && b.amount.x != 0.0
              && b.walletBalance.Num?
    ensures r.Accepted? ==> b == Body(Str(r.key), Num(r.amount), Num(r.balance))
  {
    if Falsy(b.publicKey) || Falsy(b.amount) then Rejected(MissingField)
    else if !b.walletBalance.Num? then Rejected(BadBalance)
    else Accepted(b.publicKey.s, b.amount.x, b.walletBalance.x)
  }

  /** Bodies of the wrong type still get the 400 their truthiness decides:
      a numeric key with a zero amount is missing a field, and a string
      amount with a string balance fails the balance test. */
  lemma IllTypedBodiesRejected()
    ensures Typed(Body(Num(42.0), Num(0.0), Absent))
    ensures Check(Body(Num(42.0), Num(0.0), Absent)) == Rejected(MissingField)
    ensures Typed(Body(Str("k"), Str("5"), Str("x")))
    ensures Check(Body(Str("k"), Str("5"), Str("x"))) == Rejected(BadBalance)
  {
  }
}
