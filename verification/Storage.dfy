/** The flash both stores share: it outlives every session, and a reset keeps nothing else. */
module Storage {
  import opened Utf8
  import opened Wire
  import opened AbSlots

  const NAME_RECORD_LEN: nat := 72

  /** The name record: a length byte, 63 bytes of name and padding, an 8-byte tag. */
  type NameRecord = r: seq<byte> | |r| == NAME_RECORD_LEN
    witness seq(NAME_RECORD_LEN, _ => 0)

  /** The one share record: a flattened keygen triple, with its key name already cut. */
  datatype ShareRecord = ShareRecord(
    ref: AccessRef, threshold: nat, keyName: Str, purpose: Purpose, share: EncryptedShare)

  class Flash {
    var shares: Cells<ShareRecord>
    var names: Cells<NameRecord>

    constructor (shares: Cells<ShareRecord>, names: Cells<NameRecord>)
      ensures this.shares == shares && this.names == names
    {
      this.shares := shares;
      this.names := names;
    }
  }
}
