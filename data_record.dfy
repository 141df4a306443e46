/**
 * One M-Bus data record: a DIF, its DIFE chain, a primary VIF and a
 * fixed-width payload. DecodeRecord states what decoding a record from a
 * buffer at an offset yields; the class DataRecord is the mutable record
 * object whose Decode method fills its fields in place.
 */
module DataRecords {
  import opened Wrappers
  import opened LittleEndian
  import opened VifCatalog
  import opened DateTimeF

  /** Tag of the runtime type of a decoded value. */
  datatype DataValueType = Long | Date

  datatype DataValue = LongValue(long: int) | DateValue(date: CalendarTime)

  function ValueType(v: DataValue): DataValueType
  {
    match v
    case LongValue(_) => Long
    case DateValue(_) => Date
  }

  datatype DecodingError =
    | Truncated              // the buffer ends before the record does
    | UnsupportedDataField   // a DIF data-field code outside the modelled set
    | UnsupportedVif         // a VIF outside the modelled table, or one announcing a VIFE

  datatype Record = Record(value: DataValue, description: Description, unit: Option<DlmsUnit>, multiplierExponent: int)

  /** A decoded record and the offset just past it. */
  datatype Decoded = Decoded(record: Record, next: nat)

  /** Bit 7 of a DIF, DIFE or VIF announces that an extension byte follows. */
  const EXTENSION_BIT: byte := 0x80

  predicate Extended(b: byte)
  {
    b >= EXTENSION_BIT
  }

  /**
   * Payload length in bytes of the integer data-field codes (the DIF's low
   * nibble): 2, 3, 4 and 6 bytes for codes 2, 3, 4 and 6, and 8 bytes for 7.
   */
  function PayloadLength(dif: byte): (r: Option<nat>)
    ensures r.Some? <==> dif % 16 in {2, 3, 4, 6, 7}
    ensures r.Some? && dif % 16 != 7 ==> r.value == dif % 16
    ensures dif % 16 == 7 ==> r == Some(8)
  {
    match dif % 16
    case 2 => Some(2)
    case 3 => Some(3)
    case 4 => Some(4)
    case 6 => Some(6)
    case 7 => Some(8)
    case _ => None
  }

  /**
   * The index just past the first byte at or after i whose extension bit is
   * clear, or None when the buffer ends first. Started at a DIF, that is
   * where the VIF sits.
   */
  function ChainEnd(buf: seq<byte>, i: nat): (r: Option<nat>)
    ensures r.Some? ==> i < r.value <= |buf| && !Extended(buf[r.value - 1])
    ensures r.Some? ==> forall k :: i <= k < r.value - 1 ==> Extended(buf[k])
    ensures r.None? ==> forall k :: i <= k < |buf| ==> Extended(buf[k])
    decreases |buf| - i
  {
    if i >= |buf| then None
    else if Extended(buf[i]) then ChainEnd(buf, i + 1)
    else Some(i + 1)
  }

  /**
   * Decodes the part of a record that starts at its VIF: `tail` begins with
   * the VIF and `dif` is the record's DIF. Gives the record and the number
   * of bytes of `tail` it occupies.
   */
  function DecodeBody(dif: byte, tail: seq<byte>): (r: Result<(Record, nat), DecodingError>)
    ensures |tail| == 0 ==> r == Failure(Truncated)
    ensures r.Success? ==> PayloadLength(dif).Some? && r.value.1 == 1 + PayloadLength(dif).value <= |tail|
    ensures r.Success? ==> !Extended(tail[0]) && var rec := r.value.0;
      Lookup(tail[0]) == Some(VifEntry(rec.description, rec.unit, rec.multiplierExponent))
  {
    if |tail| == 0 then Failure(Truncated)
    else
      var vif := tail[0];
      if Extended(vif) || Lookup(vif).None? then Failure(UnsupportedVif)
      else
        var entry := Lookup(vif).value;
        if PayloadLength(dif).None? then Failure(UnsupportedDataField)
        else
          var width := PayloadLength(dif).value;
          if vif == DATE_TIME_VIF && width != 4 then Failure(UnsupportedDataField)
          else if |tail| < 1 + width then Failure(Truncated)
          else
            var payload := tail[1..1 + width];
            var value := if vif == DATE_TIME_VIF then DateValue(DecodeTypeF(payload))
                         else LongValue(SignedLE(payload));
            Success((Record(value, entry.description, entry.unit, entry.multiplierExponent), 1 + width))
  }

  /** Decoding the record that starts at buf[offset]. */
  function DecodeRecord(buf: seq<byte>, offset: nat): (r: Result<Decoded, DecodingError>)
    ensures offset >= |buf| ==> r == Failure(Truncated)
    ensures r.Success? ==> offset < r.value.next <= |buf|
  {
    match ChainEnd(buf, offset)
    case None => Failure(Truncated)
    case Some(vifAt) =>
      match DecodeBody(buf[offset], buf[vifAt..])
      case Failure(e) => Failure(e)
      case Success((rec, n)) => Success(Decoded(rec, vifAt + n))
  }

  /**
   * A decoded value always has the type its VIF calls for: a date for the
   * date-and-time VIF, a 64-bit long otherwise.
   */
  lemma DecodedValueType(buf: seq<byte>, offset: nat)
    requires DecodeRecord(buf, offset).Success?
    ensures var rec := DecodeRecord(buf, offset).value.record;
      && (ValueType(rec.value) == Date <==> rec.description == DateTime)
      && (rec.value.LongValue? ==> LONG_MIN <= rec.value.long <= LONG_MAX)
  {
    var vifAt := ChainEnd(buf, offset).value;
    var tail := buf[vifAt..];
    var rec := DecodeRecord(buf, offset).value.record;
    var width := PayloadLength(buf[offset]).value;
    if rec.value.LongValue? {
      SignedFitsLong(tail[1..1 + width]);
    }
  }

  /** Shifts the end offset of a successful decode by k bytes. */
  function Shifted(r: Result<Decoded, DecodingError>, k: nat): Result<Decoded, DecodingError>
  {
    match r
    case Success(d) => Success(Decoded(d.record, d.next + k))
    case Failure(e) => Failure(e)
  }

  lemma {:induction false} ChainEndSkips(buf: seq<byte>, i: nat, j: nat)
    requires i <= j <= |buf|
    requires forall k :: i <= k < j ==> Extended(buf[k])
    ensures ChainEnd(buf, i) == ChainEnd(buf, j)
    decreases j - i
  {
    if i < j {
      ChainEndSkips(buf, i + 1, j);
    }
  }

  /**
   * DIFEs are skipped: a record whose DIF announces a chain of DIFEs
   * decodes to the same record as the one without them, ending that many
   * bytes later.
   */
  lemma DifeChainSkipped(dif: byte, difes: seq<byte>, rest: seq<byte>)
    requires !Extended(dif) && |difes| > 0
    requires forall k :: 0 <= k < |difes| - 1 ==> Extended(difes[k])
    requires !Extended(difes[|difes| - 1])
    ensures DecodeRecord([dif + EXTENSION_BIT] + difes + rest, 0) == Shifted(DecodeRecord([dif] + rest, 0), |difes|)
  {
    var long := [dif + EXTENSION_BIT] + difes + rest;
    var short := [dif] + rest;
    var n := |difes|;
    ChainEndSkips(long, 0, n);
    assert long[n] == difes[n - 1];
    assert ChainEnd(long, 0) == Some(n + 1);
    assert ChainEnd(short, 0) == Some(1);
    assert long[n + 1..] == short[1..];
    assert (dif + EXTENSION_BIT) % 16 == dif % 16;
    assert PayloadLength(long[0]) == PayloadLength(short[0]);
  }

  lemma {:induction false} ChainEndExtend(buf: seq<byte>, more: seq<byte>, i: nat)
    requires ChainEnd(buf, i).Some?
    ensures ChainEnd(buf + more, i) == ChainEnd(buf, i)
    decreases |buf| - i
  {
    assert (buf + more)[i] == buf[i];
    if Extended(buf[i]) {
      ChainEndExtend(buf, more, i + 1);
    }
  }

  lemma {:induction false} ChainEndPrefix(buf: seq<byte>, k: nat, i: nat)
    requires k <= |buf| && ChainEnd(buf, i).Some? && ChainEnd(buf, i).value <= k
    ensures ChainEnd(buf[..k], i) == ChainEnd(buf, i)
    decreases |buf| - i
  {
    assert buf[..k][i] == buf[i];
    if Extended(buf[i]) {
      ChainEndPrefix(buf, k, i + 1);
    }
  }

  lemma {:induction false} ChainEndCut(buf: seq<byte>, k: nat, i: nat)
    requires k <= |buf| && ChainEnd(buf, i).Some? && k < ChainEnd(buf, i).value
    ensures ChainEnd(buf[..k], i) == None
    decreases |buf| - i
  {
    if i < k {
      assert buf[..k][i] == buf[i];
      ChainEndCut(buf, k, i + 1);
    }
  }

  /**
   * A record is decoded from its own bytes alone: whatever follows it in the
   * buffer changes neither the record nor where it ends.
   */
  lemma DecodeIgnoresFollowingBytes(buf: seq<byte>, offset: nat, more: seq<byte>)
    requires DecodeRecord(buf, offset).Success?
    ensures DecodeRecord(buf + more, offset) == DecodeRecord(buf, offset)
  {
    ChainEndExtend(buf, more, offset);
    var vifAt := ChainEnd(buf, offset).value;
    var next := DecodeRecord(buf, offset).value.next;
    var n := next - vifAt;
    assert 1 <= n && vifAt + n <= |buf|;
    assert (buf + more)[offset] == buf[offset];
    assert (buf + more)[vifAt..][..n] == buf[vifAt..][..n];
  }

  /**
   * A buffer cut anywhere inside a record, header or payload, fails with
   * Truncated rather than yielding a record.
   */
  lemma TruncatedRecordFails(buf: seq<byte>, offset: nat, k: nat)
    requires DecodeRecord(buf, offset).Success?
    requires offset <= k < DecodeRecord(buf, offset).value.next
    ensures DecodeRecord(buf[..k], offset) == Failure(Truncated)
  {
    var vifAt := ChainEnd(buf, offset).value;
    if k < vifAt {
      ChainEndCut(buf, k, offset);
    } else {
      ChainEndPrefix(buf, k, offset);
      assert buf[..k][offset] == buf[offset];
      if k > vifAt {
        assert buf[..k][vifAt..][0] == buf[vifAt..][0];
      }
    }
  }

  /** The DIF (data-field code, no extension) and VIF bytes that head an encoded record. */
  predicate Encodable(code: byte, rec: Record)
  {
    && PayloadLength(code).Some? && code < 16
    && Encode(VifEntry(rec.description, rec.unit, rec.multiplierExponent)).Some?
    && (if rec.description == DateTime
        then code == 4 && rec.value.DateValue? && Representable(rec.value.date)
        else rec.value.LongValue? && FitsWidth(rec.value.long, PayloadLength(code).value))
  }

  /** The bytes of a record with no DIFE: DIF, primary VIF, then the payload. */
  function EncodeRecord(code: byte, rec: Record): (s: seq<byte>)
    requires Encodable(code, rec)
    ensures |s| == 2 + PayloadLength(code).value
  {
    var vif := Encode(VifEntry(rec.description, rec.unit, rec.multiplierExponent)).value;
    var payload := match rec.value
      case DateValue(t) => EncodeTypeF(t)
      case LongValue(v) => EncodeLE(v, PayloadLength(code).value);
    [code, vif] + payload
  }

  /** Encoding a record and decoding it, whatever follows, gives the record back. */
  lemma EncodeThenDecode(code: byte, rec: Record, rest: seq<byte>)
    requires Encodable(code, rec)
    ensures DecodeRecord(EncodeRecord(code, rec) + rest, 0)
         == Success(Decoded(rec, |EncodeRecord(code, rec)|))
  {
    var entry := VifEntry(rec.description, rec.unit, rec.multiplierExponent);
    var vif := Encode(entry).value;
    EncodeThenLookup(entry);
    var buf := EncodeRecord(code, rec) + rest;
    var width := PayloadLength(code).value;
    assert buf[0] == code && buf[1] == vif;
    assert ChainEnd(buf, 0) == Some(1);
    assert buf[1..][0] == vif;
    var enc := EncodeRecord(code, rec);
    var payload := buf[1..][1..1 + width];
    assert payload == buf[2..2 + width];
    assert buf[2..2 + width] == enc[2..];
    assert DecodeRecord(buf, 0) == match DecodeBody(code, buf[1..])
      case Failure(e) => Failure(e)
      case Success((r, n)) => Success(Decoded(r, 1 + n));
    if rec.description == DateTime {
      DecodeEncodeTypeF(rec.value.date);
    } else {
      assert vif != DATE_TIME_VIF;
      DecodeEncode(rec.value.long, width);
    }
  }

  /**
   * Conversely, an integer record whose DIF is below 0x10 (no DIFE,
   * function-field or storage bits) is exactly the encoding of what it
   * decodes to.
   */
  lemma DecodeThenEncode(buf: seq<byte>, offset: nat)
    requires DecodeRecord(buf, offset).Success?
    requires buf[offset] < 16
    requires DecodeRecord(buf, offset).value.record.value.LongValue?
    ensures var d := DecodeRecord(buf, offset).value;
      Encodable(buf[offset], d.record) && EncodeRecord(buf[offset], d.record) == buf[offset..d.next]
  {
    var d := DecodeRecord(buf, offset).value;
    var code := buf[offset];
    var width := PayloadLength(code).value;
    var vif := buf[offset + 1];
    var payload := buf[offset + 2..offset + 2 + width];
    assert buf[offset + 1..][1..1 + width] == payload;
    LookupThenEncode(vif);
    EncodeDecode(payload);
    assert buf[offset..d.next] == [code, vif] + payload;
  }

  /**
   * The mutable record object. It starts empty; Decode fills its value,
   * value type, description, unit and multiplier exponent from a buffer.
   */
  class DataRecord {
    var dataValue: Option<DataValue>
    var dataValueType: Option<DataValueType>
    var description: Option<Description>
    var unit: Option<DlmsUnit>
    var multiplierExponent: int

    /** The value type always names the runtime type of the value. */
    ghost predicate Valid()
      reads this
    {
      && dataValueType == (if dataValue.Some? then Some(ValueType(dataValue.value)) else None)
      && (dataValue.Some? <==> description.Some?)
    }

    /** The record held, None while nothing has been decoded. */
    ghost function Contents(): Option<Record>
      reads this
      requires Valid()
    {
      if dataValue.None? then None
      else Some(Record(dataValue.value, description.value, unit, multiplierExponent))
    }

    constructor ()
      ensures Valid() && Contents() == None
      ensures unit == None && multiplierExponent == 0
    {
      dataValue := None;
      dataValueType := None;
      description := None;
      unit := None;
      multiplierExponent := 0;
    }

    /**
     * Decodes the record at buffer[offset] into this object and returns the
     * offset just past it. On failure the object is left as it was.
     */
    method Decode(buffer: array<byte>, offset: nat) returns (result: Result<nat, DecodingError>)
      requires Valid()
      modifies this
      ensures Valid()
      ensures match DecodeRecord(buffer[..], offset)
        case Success(d) => result == Success(d.next) && Contents() == Some(d.record)
        case Failure(e) => result == Failure(e) && unchanged(this)
    {
      var vifAt := SkipDifChain(buffer, offset);
      if vifAt.None? {
        return Failure(Truncated);
      }
      var body := ReadBody(buffer, buffer[offset], vifAt.value);
      if body.Failure? {
        return Failure(body.error);
      }
      var (rec, n) := body.value;
      dataValue := Some(rec.value);
      dataValueType := Some(ValueType(rec.value));
      description := Some(rec.description);
      unit := rec.unit;
      multiplierExponent := rec.multiplierExponent;
      result := Success(vifAt.value + n);
    }
  }

  /**
   * Walks the DIF at buffer[offset] and its DIFEs and returns the index of
   * the VIF, None when the buffer ends inside the chain.
   */
  method SkipDifChain(buffer: array<byte>, offset: nat) returns (vifAt: Option<nat>)
    ensures vifAt == ChainEnd(buffer[..], offset)
  {
    if offset >= buffer.Length {
      return None;
    }
    // The DIF and each DIFE whose extension bit is set announce one more DIFE.
    var i := offset;
    while i < buffer.Length && Extended(buffer[i])
      invariant offset <= i <= buffer.Length
      invariant ChainEnd(buffer[..], i) == ChainEnd(buffer[..], offset)
      decreases buffer.Length - i
    {
      i := i + 1;
    }
    if i == buffer.Length {
      return None;
    }
    return Some(i + 1);
  }

  /**
   * Reads the VIF at buffer[vifAt] and the payload after it for a record
   * whose DIF is dif: the record and the number of bytes from the VIF on.
   */
  method ReadBody(buffer: array<byte>, dif: byte, vifAt: nat) returns (r: Result<(Record, nat), DecodingError>)
    requires vifAt <= buffer.Length
    ensures r == DecodeBody(dif, buffer[vifAt..])
  {
    ghost var tail := buffer[vifAt..];
    if vifAt == buffer.Length {
      return Failure(Truncated);
    }
    var vif := buffer[vifAt];
    assert tail[0] == vif;
    var entry := Lookup(vif);
    if Extended(vif) || entry.None? {
      return Failure(UnsupportedVif);
    }
    var width := PayloadLength(dif);
    if width.None? || (vif == DATE_TIME_VIF && width.value != 4) {
      return Failure(UnsupportedDataField);
    }
    var start := vifAt + 1;
    if buffer.Length - start < width.value {
      return Failure(Truncated);
    }
    assert tail[1..1 + width.value] == buffer[start..start + width.value];
    var value;
    if vif == DATE_TIME_VIF {
      value := DateValue(DecodeTypeF(buffer[start..start + 4]));
    } else {
      var long := ReadLong(buffer, start, width.value);
      value := LongValue(long);
    }
    var e := entry.value;
    r := Success((Record(value, e.description, e.unit, e.multiplierExponent), 1 + width.value));
  }
}
