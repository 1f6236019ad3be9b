/** What several layers share. */
module Common {

  /** Every page has this many bytes. */
  const PAGE_SIZE := 4096

  /** Transaction ids are handed out from 1; 0 is INVALID_TX_ID. */
  type TxId = nat

  const INVALID_TX_ID: TxId := 0

  datatype Option<+T> = None | Some(value: T)

  /** UpdateTableRows: a row count never goes below zero. */
  function ClampedSum(rows: nat, change: int): nat {
    if change < 0 && -change > rows then 0 else rows + change
  }
}
