/** Server types and message ranges that several components share. */
module ServerTypes {
  import opened Bytes

  const CLIENT: byte := 0

  const CENTRAL_SERVER: byte := 5

  /** Messages that the balance server passes between clients and the central server. */
  const TRANS_BEGIN := 17000

  const TRANS_END := 17500
}
