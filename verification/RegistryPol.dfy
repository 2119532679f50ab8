/**
 The Registry.pol record parser ([MS-GPREG] section 2.2.1), over bytes.  Keys and value names are kept as the raw
 bytes of their UTF-16LE code units.
 */
module RegistryPol {
  import opened Prelude

  type Byte = b: nat | b < 256

  datatype Record = Record(key: seq<Byte>, valueName: seq<Byte>, typeCode: nat, data: seq<Byte>)

  const SIGNATURE: seq<Byte> := [0x50, 0x52, 0x65, 0x67]
  const VERSION: seq<Byte> := [1, 0, 0, 0]
  const OPEN: seq<Byte> := [0x5b, 0]
  const CLOSE: seq<Byte> := [0x5d, 0]
  const SEP: seq<Byte> := [0x3b, 0]
  const NULL: seq<Byte> := [0, 0]

  predicate HasAt(buf: seq<Byte>, pos: nat, mark: seq<Byte>) {
    pos + |mark| <= |buf| && buf[pos..pos + |mark|] == mark
  }

  /** Where the NUL code unit is, looking from `pos` in steps of one code unit. */
  function FindNull(buf: seq<Byte>, pos: nat): (r: Option<nat>)
    ensures r.Some? ==> pos <= r.value && r.value + 2 <= |buf|
    decreases |buf| - pos
  {
    if pos + 1 >= |buf| then None
    else if buf[pos] == 0 && buf[pos + 1] == 0 then Some(pos)
    else FindNull(buf, pos + 2)
  }

  /** The bytes up to the NUL and the offset after it; without a NUL, the rest of the buffer. */
  function ReadNull(buf: seq<Byte>, pos: nat): (r: (seq<Byte>, nat))
    requires pos <= |buf|
    ensures pos <= r.1 <= |buf|
  {
    match FindNull(buf, pos)
    case Some(p) => (buf[pos..p], p + 2)
    case None => (buf[pos..], |buf|)
  }

  method ReadUtf16Null(buf: seq<Byte>, offset: nat) returns (text: seq<Byte>, next: nat)
    requires offset <= |buf|
    ensures (text, next) == ReadNull(buf, offset)
    ensures offset <= next <= |buf|
  {
    var pos := offset;
    while pos + 1 < |buf|
      invariant offset <= pos
      invariant FindNull(buf, pos) == FindNull(buf, offset)
    {
      if buf[pos] == 0 && buf[pos + 1] == 0 {
        return buf[offset..pos], pos + 2;
      }
      pos := pos + 2;
    }
    return buf[offset..], |buf|;
  }

  function Dword(buf: seq<Byte>, pos: nat): nat
    requires pos + 4 <= |buf|
  {
    (buf[pos] as nat) + 0x100 * (buf[pos + 1] as nat) + 0x1_0000 * (buf[pos + 2] as nat)
      + 0x100_0000 * (buf[pos + 3] as nat)
  }

  datatype Placed = Placed(record: Record, end: nat)

  /** What follows the two strings of a record: type, size, data and the closing bracket. */
  function ParseTail(buf: seq<Byte>, p3: nat): (r: Option<(nat, seq<Byte>, nat)>)
    ensures r.Some? ==> p3 < r.value.2 <= |buf|
  {
    if p3 + 4 > |buf| || !HasAt(buf, p3 + 4, SEP) then None else
    var p4 := p3 + 6;
    if p4 + 4 > |buf| || !HasAt(buf, p4 + 4, SEP) then None else
    var size, p5 := Dword(buf, p4), p4 + 6;
    if p5 + size > |buf| || !HasAt(buf, p5 + size, CLOSE) then None else
    Some((Dword(buf, p3), buf[p5..p5 + size], p5 + size + 2))
  }

  /** One record whose opening bracket ends at `pos`; nothing when it is malformed or cut off. */
  function ParseRecord(buf: seq<Byte>, pos: nat): (r: Option<Placed>)
    requires pos <= |buf|
    ensures r.Some? ==> pos < r.value.end <= |buf|
  {
    var (key, p1) := ReadNull(buf, pos);
    if !HasAt(buf, p1, SEP) then None else
    var (name, p2) := ReadNull(buf, p1 + 2);
    if !HasAt(buf, p2, SEP) then None else
    match ParseTail(buf, p2 + 2)
    case None => None
    case Some((typeCode, data, end)) => Some(Placed(Record(key, name, typeCode, data), end))
  }

  /** The records from `pos` on, skipping stray bytes, up to the first one that does not parse. */
  function ParseFrom(buf: seq<Byte>, pos: nat): seq<Placed>
    decreases |buf| - pos
  {
    if pos + 1 >= |buf| then []
    else if !HasAt(buf, pos, OPEN) then ParseFrom(buf, pos + 1)
    else
      match ParseRecord(buf, pos + 2)
      case None => []
      case Some(p) => [p] + ParseFrom(buf, p.end)
  }

  function BodyStart(buf: seq<Byte>): nat {
    if HasAt(buf, 0, SIGNATURE) then 8 else 0
  }

  function Located(buf: seq<Byte>): seq<Placed> {
    ParseFrom(buf, BodyStart(buf))
  }

  function RecordsOf(placed: seq<Placed>): (rs: seq<Record>)
    ensures |rs| == |placed| && forall i :: 0 <= i < |rs| ==> rs[i] == placed[i].record
  {
    seq(|placed|, i requires 0 <= i < |placed| => placed[i].record)
  }

  method ReadTail(data: seq<Byte>, p3: nat) returns (r: Option<(nat, seq<Byte>, nat)>)
    ensures r == ParseTail(data, p3)
  {
    var n, pos := |data|, p3;
    if pos + 4 > n { return None; }
    var typeCode := Dword(data, pos);
    pos := pos + 4;
    if !HasAt(data, pos, SEP) { return None; }
    pos := pos + 2;
    if pos + 4 > n { return None; }
    var size := Dword(data, pos);
    pos := pos + 4;
    if !HasAt(data, pos, SEP) { return None; }
    pos := pos + 2;
    if pos + size > n { return None; }
    var raw := data[pos..pos + size];
    pos := pos + size;
    if !HasAt(data, pos, CLOSE) { return None; }
    pos := pos + 2;
    r := Some((typeCode, raw, pos));
  }

  method ReadRecord(data: seq<Byte>, start: nat) returns (record: Option<Placed>)
    requires start <= |data|
    ensures record == ParseRecord(data, start)
  {
    hide ParseTail;
    var pos, key, valueName := start, [], [];
    key, pos := ReadUtf16Null(data, pos);
    if !HasAt(data, pos, SEP) { return None; }
    pos := pos + 2;
    valueName, pos := ReadUtf16Null(data, pos);
    if !HasAt(data, pos, SEP) { return None; }
    pos := pos + 2;
    var tail := ReadTail(data, pos);
    if tail.None? { return None; }
    record := Some(Placed(Record(key, valueName, tail.value.0, tail.value.1), tail.value.2));
  }

  method ParseRegistryPol(data: seq<Byte>) returns (records: seq<Record>)
    ensures records == RecordsOf(Located(data))
  {
    hide ParseRecord, HasAt;
    if data == [] { return []; }
    var pos := if HasAt(data, 0, SIGNATURE) then 8 else 0;
    records := [];
    ghost var found: seq<Placed> := [];
    while pos + 1 < |data|
      invariant 0 <= pos
      invariant records == RecordsOf(found)
      invariant found + ParseFrom(data, pos) == Located(data)
      decreases |data| - pos
    {
      if !HasAt(data, pos, OPEN) {
        pos := pos + 1;
        continue;
      }
      var record := ReadRecord(data, pos + 2);
      if record.None? { break; }
      assert found + ([record.value] + ParseFrom(data, record.value.end))
        == (found + [record.value]) + ParseFrom(data, record.value.end);
      pos := record.value.end;
      records := records + [record.value.record];
      found := found + [record.value];
    }
  }
}
