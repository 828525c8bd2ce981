/** The values exchanged during a configuration transfer. */
module ConfigurationTypes {
  import opened Bytes

  const MAXIMUM_RECORD_BYTES: nat := 448
  const RECORD_KINDS: nat := 6

  /**
   One CONFIG_RECORD. `body` holds exactly the `length` octets that the source
   keeps at the front of its fixed 448-octet array.
   */
  datatype Record = Record(messageId: nat, generation: nat, sequence: nat, kind: byte, body: seq<byte>)

  datatype Begin = Begin(messageId: nat, generation: nat, schemaVersion: nat, maximumRecordBytes: nat,
                         recordCount: nat, checksum: seq<byte>)

  datatype End = End(messageId: nat, generation: nat, recordCount: nat, checksum: seq<byte>)

  datatype Manifest = Manifest(generation: nat, schemaVersion: nat, maximumRecordBytes: nat,
                               recordCount: nat, checksum: seq<byte>, finalized: bool)

  /** The hash input of one record: sequence, kind and length, then the body. */
  function Envelope(r: Record): seq<byte> {
    BigEndian(r.sequence, 4) + [r.kind] + BigEndian(|r.body|, 2) + r.body
  }

  /** The hash input of a record list. */
  function Stream(rs: seq<Record>): seq<byte> {
    if rs == [] then [] else Stream(rs[..|rs| - 1]) + Envelope(rs[|rs| - 1])
  }
}
