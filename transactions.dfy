/** The sales transaction record every stage of the pipeline passes along. */
module Transactions {

  /**
   * One parsed line of the sales file. UnitPrice is a real: the source holds a
   * Python float, whose rounding this model does not reproduce.
   */
  datatype Transaction = Transaction(
    transactionId: string,
    date: string,
    productId: string,
    productName: string,
    quantity: int,
    unitPrice: real,
    customerId: string,
    region: string)

  /** Quantity * UnitPrice, the amount of one transaction. */
  function Amount(t: Transaction): real {
    t.quantity as real * t.unitPrice
  }
}
