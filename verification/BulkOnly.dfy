/** Bulk-Only Transport 1.0 on the wire: the command block wrapper (section 5.1), the
    command status wrapper (section 5.2), and the SCSI blocks inside, as both ends
    pack and unpack them. */
module BulkOnly {
  import opened Bytes

  const CBW_SIGNATURE: u32 := 0x43425355
  const CSW_SIGNATURE: u32 := 0x53425355
  const CBW_LEN: nat := 31
  const CSW_LEN: nat := 13

  const PASSED: byte := 0
  const FAILED: byte := 1
  const PHASE_ERROR: byte := 2

  const TEST_UNIT_READY: byte := 0x00
  const REQUEST_SENSE: byte := 0x03
  const INQUIRY: byte := 0x12
  const MODE_SENSE_6: byte := 0x1A
  const START_STOP_UNIT: byte := 0x1B
  const PREVENT_ALLOW: byte := 0x1E
  const READ_FORMAT_CAPACITIES: byte := 0x23
  const READ_CAPACITY_10: byte := 0x25
  const READ_10: byte := 0x28
  const WRITE_10: byte := 0x2A
  const VERIFY_10: byte := 0x2F
  const SYNCHRONIZE_CACHE_10: byte := 0x35
  const MODE_SENSE_10: byte := 0x5A

  // ---- big-endian fields, as SCSI has them

  function BE16(n: nat): (r: seq<byte>)
    requires n < 0x1_0000
    ensures |r| == 2 && GetBE16(r, 0) == n
  {
    var high: byte := n / 256;
    [high, n % 256]
  }

  function BE32(n: u32): (r: seq<byte>)
    ensures |r| == 4 && GetBE32(r, 0) == n
  {
    var le := LE32(n);
    [le[3], le[2], le[1], le[0]]
  }

  function GetBE16(s: seq<byte>, at: nat): (n: nat)
    requires at + 2 <= |s|
    ensures n < 0x1_0000
  {
    s[at] as int * 256 + s[at + 1] as int
  }

  function GetBE32(s: seq<byte>, at: nat): (n: u32)
    requires at + 4 <= |s|
  {
    s[at] as int * 0x100_0000 + s[at + 1] as int * 0x1_0000 + s[at + 2] as int * 256 + s[at + 3] as int
  }

  // ---- wrappers

  /** struct.pack("<IIIBBB") and the command block, filled up to 16 bytes. */
  function PackCbw(tag: u32, dlen: u32, flags: byte, lun: byte, cb: seq<byte>): (r: seq<byte>)
    requires |cb| <= 16
    ensures |r| == CBW_LEN
  {
    LE32(CBW_SIGNATURE) + LE32(tag) + LE32(dlen) + [flags, lun, |cb|] + (cb + Zeros(16 - |cb|))
  }

  predicate IsCbw(s: seq<byte>) {
    |s| == CBW_LEN && Get32(s, 0) == CBW_SIGNATURE
  }

  lemma CbwRoundTrip(tag: u32, dlen: u32, flags: byte, lun: byte, cb: seq<byte>)
    requires |cb| <= 16
    ensures var s := PackCbw(tag, dlen, flags, lun, cb);
            && IsCbw(s) && Get32(s, 4) == tag && Get32(s, 8) == dlen && s[12] == flags
            && s[15..31] == cb + Zeros(16 - |cb|)
  {
    var s := PackCbw(tag, dlen, flags, lun, cb);
    assert s[0..4] == LE32(CBW_SIGNATURE) && s[4..8] == LE32(tag) && s[8..12] == LE32(dlen);
    FieldAt(s, 0);
    FieldAt(s, 4);
    FieldAt(s, 8);
  }

  function PackCsw(tag: u32, residue: u32, status: byte): (r: seq<byte>)
    ensures |r| == CSW_LEN
  {
    LE32(CSW_SIGNATURE) + LE32(tag) + LE32(residue) + [status]
  }

  lemma CswRoundTrip(tag: u32, residue: u32, status: byte)
    ensures var s := PackCsw(tag, residue, status);
            Get32(s, 0) == CSW_SIGNATURE && Get32(s, 4) == tag && Get32(s, 8) == residue && s[12] == status
  {
    var s := PackCsw(tag, residue, status);
    assert s[0..4] == LE32(CSW_SIGNATURE) && s[4..8] == LE32(tag) && s[8..12] == LE32(residue);
    FieldAt(s, 0);
    FieldAt(s, 4);
    FieldAt(s, 8);
  }

  /** READ(10) or WRITE(10), as the host packs it: struct ">BBIBHB". */
  function BlockCommand(op: byte, lba: u32, count: nat): (r: seq<byte>)
    requires count < 0x1_0000
    ensures |r| == 10
  {
    [op, 0] + BE32(lba) + [0] + BE16(count) + [0]
  }

  /** And as the device unpacks it: struct ">IxH" at byte 2. */
  lemma BlockCommandRoundTrip(op: byte, lba: u32, count: nat)
    requires count < 0x1_0000
    ensures var cb := BlockCommand(op, lba, count) + Zeros(6);
            |cb| == 16 && cb[0] == op && GetBE32(cb, 2) == lba && GetBE16(cb, 7) == count
  {
    var cb := BlockCommand(op, lba, count) + Zeros(6);
    assert cb[2..6] == BE32(lba) && cb[7..9] == BE16(count);
    assert GetBE32(cb, 2) == GetBE32(cb[2..6], 0) && GetBE16(cb, 7) == GetBE16(cb[7..9], 0);
  }
}
