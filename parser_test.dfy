/**
 * The decoder's test vectors: each lemma states what DecodeRecord yields
 * for one byte string of the parser tests, and each method replays a test
 * on a fresh DataRecord object.
 */
module DataRecordParserTest {
  import opened Wrappers
  import opened LittleEndian
  import opened VifCatalog
  import opened DateTimeF
  import opened DataRecords

  /** The long a buffer's first record decodes to, if it decodes to one. */
  function LongAt(buf: seq<byte>): Option<int>
  {
    var r := DecodeRecord(buf, 0);
    if r.Success? && r.value.record.value.LongValue? then Some(r.value.record.value.long) else None
  }

  /**
   * A buffer holding exactly one integer record without DIFEs decodes to the
   * signed little-endian reading of its payload, under its VIF's entry.
   */
  lemma IntegerRecord(buf: seq<byte>)
    requires |buf| >= 2 && !Extended(buf[0]) && PayloadLength(buf[0]).Some?
    requires |buf| == 2 + PayloadLength(buf[0]).value
    requires !Extended(buf[1]) && buf[1] != DATE_TIME_VIF && Lookup(buf[1]).Some?
    ensures var e := Lookup(buf[1]).value;
      DecodeRecord(buf, 0) == Success(Decoded(Record(LongValue(SignedLE(buf[2..])), e.description, e.unit, e.multiplierExponent), |buf|))
  {
    var width := PayloadLength(buf[0]).value;
    assert ChainEnd(buf, 0) == Some(1);
    assert buf[1..][0] == buf[1];
    assert buf[1..][1..1 + width] == buf[2..];
  }

  // decode1: eight-byte fields (DIF 0x07)

  lemma Decode1AllOnes()
    ensures LongAt([0x07, 0x04, 0xFF, 0xFF, 0xFF, 0xFF, 0xFF, 0xFF, 0xFF, 0xFF]) == Some(-1)
  {
    var buf: seq<byte> := [0x07, 0x04, 0xFF, 0xFF, 0xFF, 0xFF, 0xFF, 0xFF, 0xFF, 0xFF];
    IntegerRecord(buf);
    assert buf[2..] == Ones(8);
    AllOnesIsMinusOne(8);
  }

  lemma Decode1Mixed()
    ensures LongAt([0x07, 0x04, 0x12, 0x23, 0x34, 0x45, 0x56, 0x67, 0x78, 0x12]) == Some(1330927310113874706)
    ensures 1330927310113874706 == 0x1278_6756_4534_2312
  {
    var buf: seq<byte> := [0x07, 0x04, 0x12, 0x23, 0x34, 0x45, 0x56, 0x67, 0x78, 0x12];
    IntegerRecord(buf);
    EightBytes(buf[2..]);
  }

  /** The reading of an eight-byte field whose sign bit is clear, written out byte by byte. */
  lemma EightBytes(f: seq<byte>)
    requires |f| == 8 && f[7] < 0x80
    ensures SignedLE(f) == (f[0] as int) + 0x100 * (f[1] as int) + 0x1_0000 * (f[2] as int) + 0x100_0000 * (f[3] as int)
      + 0x1_0000_0000 * (f[4] as int) + 0x100_0000_0000 * (f[5] as int) + 0x1_0000_0000_0000 * (f[6] as int) + 0x100_0000_0000_0000 * (f[7] as int)
  {
    assert f[7..][1..] == [];
    assert UnsignedLE(f[7..]) == f[7];
    assert UnsignedLE(f[6..]) == f[6] + 0x100 * (f[7] as int) by { assert f[6..][1..] == f[7..]; }
    assert UnsignedLE(f[5..]) == f[5] + 0x100 * UnsignedLE(f[6..]) by { assert f[5..][1..] == f[6..]; }
    assert UnsignedLE(f[4..]) == f[4] + 0x100 * UnsignedLE(f[5..]) by { assert f[4..][1..] == f[5..]; }
    assert UnsignedLE(f[3..]) == f[3] + 0x100 * UnsignedLE(f[4..]) by { assert f[3..][1..] == f[4..]; }
    assert UnsignedLE(f[2..]) == f[2] + 0x100 * UnsignedLE(f[3..]) by { assert f[2..][1..] == f[3..]; }
    assert UnsignedLE(f[1..]) == f[1] + 0x100 * UnsignedLE(f[2..]) by { assert f[1..][1..] == f[2..]; }
  }

  /** The reading of a four-byte field whose sign bit is clear. */
  lemma FourBytes(f: seq<byte>)
    requires |f| == 4 && f[3] < 0x80
    ensures SignedLE(f) == (f[0] as int) + 0x100 * (f[1] as int) + 0x1_0000 * (f[2] as int) + 0x100_0000 * (f[3] as int)
  {
    assert f[3..][1..] == [];
    assert UnsignedLE(f[3..]) == f[3];
    assert UnsignedLE(f[2..]) == f[2] + 0x100 * UnsignedLE(f[3..]) by { assert f[2..][1..] == f[3..]; }
    assert UnsignedLE(f[1..]) == f[1] + 0x100 * UnsignedLE(f[2..]) by { assert f[1..][1..] == f[2..]; }
  }

  /** The reading of a two-byte field whose sign bit is clear. */
  lemma TwoBytes(f: seq<byte>)
    requires |f| == 2 && f[1] < 0x80
    ensures SignedLE(f) == (f[0] as int) + 0x100 * (f[1] as int)
  {
    assert f[1..][1..] == [];
    assert UnsignedLE(f[1..]) == f[1];
  }

  // testINT16 .. testINT64: the largest value and -1 at every width

  lemma Int16Vectors()
    ensures LongAt([0x02, 0x03, 0xFF, 0x7F]) == Some(32767)
    ensures LongAt([0x02, 0x03, 0xFF, 0xFF]) == Some(-1)
  {
    var max: seq<byte> := [0x02, 0x03, 0xFF, 0x7F];
    var ones: seq<byte> := [0x02, 0x03, 0xFF, 0xFF];
    IntegerRecord(max);
    IntegerRecord(ones);
    assert max[2..] == Ones(1) + [0x7F];
    assert ones[2..] == Ones(2);
    MaxPatternIsMax(2);
    AllOnesIsMinusOne(2);
    assert Pow256(2) / 2 - 1 == 32767;
  }

  lemma Int24Vectors()
    ensures LongAt([0x03, 0x03, 0xFF, 0xFF, 0x7F]) == Some(8388607)
    ensures LongAt([0x03, 0x03, 0xFF, 0xFF, 0xFF]) == Some(-1)
  {
    var max: seq<byte> := [0x03, 0x03, 0xFF, 0xFF, 0x7F];
    var ones: seq<byte> := [0x03, 0x03, 0xFF, 0xFF, 0xFF];
    IntegerRecord(max);
    IntegerRecord(ones);
    assert max[2..] == Ones(2) + [0x7F];
    assert ones[2..] == Ones(3);
    MaxPatternIsMax(3);
    AllOnesIsMinusOne(3);
    assert Pow256(3) / 2 - 1 == 8388607;
  }

  lemma Int32Vectors()
    ensures LongAt([0x04, 0x03, 0xFF, 0xFF, 0xFF, 0x7F]) == Some(2147483647)
    ensures LongAt([0x04, 0x03, 0xFF, 0xFF, 0xFF, 0xFF]) == Some(-1)
  {
    var max: seq<byte> := [0x04, 0x03, 0xFF, 0xFF, 0xFF, 0x7F];
    var ones: seq<byte> := [0x04, 0x03, 0xFF, 0xFF, 0xFF, 0xFF];
    IntegerRecord(max);
    IntegerRecord(ones);
    assert max[2..] == Ones(3) + [0x7F];
    assert ones[2..] == Ones(4);
    MaxPatternIsMax(4);
    AllOnesIsMinusOne(4);
    assert Pow256(4) / 2 - 1 == 2147483647;
  }

  lemma Int48Vectors()
    ensures LongAt([0x06, 0x03, 0xFF, 0xFF, 0xFF, 0xFF, 0xFF, 0x7F]) == Some(140737488355327)
    ensures LongAt([0x06, 0x03, 0xFF, 0xFF, 0xFF, 0xFF, 0xFF, 0xFF]) == Some(-1)
  {
    var max: seq<byte> := [0x06, 0x03, 0xFF, 0xFF, 0xFF, 0xFF, 0xFF, 0x7F];
    var ones: seq<byte> := [0x06, 0x03, 0xFF, 0xFF, 0xFF, 0xFF, 0xFF, 0xFF];
    IntegerRecord(max);
    IntegerRecord(ones);
    assert max[2..] == Ones(5) + [0x7F];
    assert ones[2..] == Ones(6);
    MaxPatternIsMax(6);
    AllOnesIsMinusOne(6);
    assert Pow256(6) / 2 - 1 == 140737488355327;
  }

  lemma Int64Vectors()
    ensures LongAt([0x07, 0x03, 0xFF, 0xFF, 0xFF, 0xFF, 0xFF, 0xFF, 0xFF, 0x7F]) == Some(LONG_MAX)
    ensures LongAt([0x07, 0x03, 0xFF, 0xFF, 0xFF, 0xFF, 0xFF, 0xFF, 0xFF, 0xFF]) == Some(-1)
  {
    var max: seq<byte> := [0x07, 0x03, 0xFF, 0xFF, 0xFF, 0xFF, 0xFF, 0xFF, 0xFF, 0x7F];
    var ones: seq<byte> := [0x07, 0x03, 0xFF, 0xFF, 0xFF, 0xFF, 0xFF, 0xFF, 0xFF, 0xFF];
    IntegerRecord(max);
    IntegerRecord(ones);
    assert max[2..] == Ones(7) + [0x7F];
    assert ones[2..] == Ones(8);
    MaxPatternIsMax(8);
    AllOnesIsMinusOne(8);
    assert Pow256(8) / 2 - 1 == LONG_MAX;
  }

  // testDataRecords: description, unit, exponent and value per VIF family

  lemma EnergyRecord()
    ensures DecodeRecord([0x04, 0x07, 0xC8, 0x1E, 0x00, 0x00], 0)
         == Success(Decoded(Record(LongValue(7880), Energy, Some(WattHour), 4), 6))
  {
    var buf: seq<byte> := [0x04, 0x07, 0xC8, 0x1E, 0x00, 0x00];
    IntegerRecord(buf);
    FourBytes(buf[2..]);
  }

  lemma VolumeRecord()
    ensures DecodeRecord([0x04, 0x15, 0xFE, 0xBF, 0x00, 0x00], 0)
         == Success(Decoded(Record(LongValue(49150), Volume, Some(CubicMetre), -1), 6))
  {
    var buf: seq<byte> := [0x04, 0x15, 0xFE, 0xBF, 0x00, 0x00];
    IntegerRecord(buf);
    FourBytes(buf[2..]);
  }

  lemma VolumeRecordWithDife()
    ensures DecodeRecord([0x84, 0x40, 0x15, 0xF8, 0xBF, 0x00, 0x00], 0)
         == Success(Decoded(Record(LongValue(49144), Volume, Some(CubicMetre), -1), 7))
  {
    var rest: seq<byte> := [0x15, 0xF8, 0xBF, 0x00, 0x00];
    var plain: seq<byte> := [0x04] + rest;
    DifeChainSkipped(0x04, [0x40], rest);
    IntegerRecord(plain);
    assert plain[2..] == [0xF8, 0xBF, 0x00, 0x00];
    FourBytes(plain[2..]);
    assert [0x04 + EXTENSION_BIT] + [0x40] + rest == [0x84, 0x40, 0x15, 0xF8, 0xBF, 0x00, 0x00];
  }

  lemma OnTimeRecord()
    ensures DecodeRecord([0x04, 0x22, 0x38, 0x09, 0x00, 0x00], 0)
         == Success(Decoded(Record(LongValue(2360), OnTime, Some(Hour), 0), 6))
  {
    var buf: seq<byte> := [0x04, 0x22, 0x38, 0x09, 0x00, 0x00];
    IntegerRecord(buf);
    FourBytes(buf[2..]);
  }

  lemma OperatingTimeRecord()
    ensures DecodeRecord([0x04, 0x26, 0x3D, 0x07, 0x00, 0x00], 0)
         == Success(Decoded(Record(LongValue(1853), OperatingTime, Some(Hour), 0), 6))
  {
    var buf: seq<byte> := [0x04, 0x26, 0x3D, 0x07, 0x00, 0x00];
    IntegerRecord(buf);
    FourBytes(buf[2..]);
  }

  lemma FlowTemperatureRecord()
    ensures DecodeRecord([0x02, 0x5A, 0x79, 0x02], 0)
         == Success(Decoded(Record(LongValue(633), FlowTemperature, Some(DegreeCelsius), -1), 4))
  {
    var buf: seq<byte> := [0x02, 0x5A, 0x79, 0x02];
    IntegerRecord(buf);
    TwoBytes(buf[2..]);
  }

  lemma ReturnTemperatureRecord()
    ensures DecodeRecord([0x02, 0x5E, 0xA6, 0x01], 0)
         == Success(Decoded(Record(LongValue(422), ReturnTemperature, Some(DegreeCelsius), -1), 4))
  {
    var buf: seq<byte> := [0x02, 0x5E, 0xA6, 0x01];
    IntegerRecord(buf);
    TwoBytes(buf[2..]);
  }

  lemma TemperatureDifferenceRecord()
    ensures DecodeRecord([0x02, 0x62, 0xD3, 0x00], 0)
         == Success(Decoded(Record(LongValue(211), TemperatureDifference, Some(Kelvin), -1), 4))
  {
    var buf: seq<byte> := [0x02, 0x62, 0xD3, 0x00];
    IntegerRecord(buf);
    TwoBytes(buf[2..]);
  }

  /** 2b 11 78 11 is 24 January 2011, 17:43. */
  lemma DateTimeRecord()
    ensures DecodeRecord([0x04, 0x6D, 0x2B, 0x11, 0x78, 0x11], 0)
         == Success(Decoded(Record(DateValue(CalendarTime(2011, 1, 24, 17, 43)), DateTime, None, 0), 6))
  {
    var buf: seq<byte> := [0x04, 0x6D, 0x2B, 0x11, 0x78, 0x11];
    assert ChainEnd(buf, 0) == Some(1);
    assert buf[1..][1..5] == [0x2B, 0x11, 0x78, 0x11];
  }

  /** A fresh record object after decoding `bytes` from offset 0. */
  method DecodeFresh(bytes: seq<byte>) returns (record: DataRecord)
    ensures fresh(record) && record.Valid()
    ensures DecodeRecord(bytes, 0).Success? ==> record.Contents() == Some(DecodeRecord(bytes, 0).value.record)
  {
    record := new DataRecord();
    var buffer := new byte[|bytes|](i requires 0 <= i < |bytes| => bytes[i]);
    assert buffer[..] == bytes;
    var _ := record.Decode(buffer, 0);
  }

  /** testINT16 on fresh objects: the value and value type each decode leaves behind. */
  method TestInt16() returns (maxValue: Option<DataValue>, maxType: Option<DataValueType>,
                              onesValue: Option<DataValue>, onesType: Option<DataValueType>)
    ensures maxValue == Some(LongValue(32767)) && maxType == Some(Long)
    ensures onesValue == Some(LongValue(-1)) && onesType == Some(Long)
  {
    Int16Vectors();
    var record := DecodeFresh([0x02, 0x03, 0xFF, 0x7F]);
    maxValue, maxType := record.dataValue, record.dataValueType;
    record := DecodeFresh([0x02, 0x03, 0xFF, 0xFF]);
    onesValue, onesType := record.dataValue, record.dataValueType;
  }

  /** testDataRecords, vector 84 40 15 f8 bf 00 00, on a fresh object. */
  method TestDataRecordsVolumeWithDife() returns (description: Option<Description>, unit: Option<DlmsUnit>,
                                                  exponent: int, value: Option<DataValue>)
    ensures description == Some(Volume) && unit == Some(CubicMetre)
    ensures exponent == -1 && value == Some(LongValue(49144))
  {
    VolumeRecordWithDife();
    var record := DecodeFresh([0x84, 0x40, 0x15, 0xF8, 0xBF, 0x00, 0x00]);
    description, unit := record.description, record.unit;
    exponent, value := record.multiplierExponent, record.dataValue;
  }

  /** testDataRecords, vector 04 6d 2b 11 78 11, on a fresh object. */
  method TestDataRecordsDateTime() returns (description: Option<Description>, unit: Option<DlmsUnit>,
                                            exponent: int, valueType: Option<DataValueType>)
    ensures description == Some(DateTime) && unit == None
    ensures exponent == 0 && valueType == Some(Date)
  {
    DateTimeRecord();
    var record := DecodeFresh([0x04, 0x6D, 0x2B, 0x11, 0x78, 0x11]);
    description, unit := record.description, record.unit;
    exponent, valueType := record.multiplierExponent, record.dataValueType;
  }
}
