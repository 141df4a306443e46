# M-Bus data record decoder

A Dafny model of jmbus's single-record decoder, `DataRecord.decode(bytes, offset)`,
for the M-Bus application layer of EN 13757-3. A data record starts with a DIF
(Data Information Field). Its low nibble gives the payload length and bit 7
announces a DIFE (extension byte). Each DIFE with bit 7 set announces one more.
Then comes a primary VIF (Value Information Field): its seven low bits give the
description, the unit and the decimal multiplier exponent. The payload follows.

The model follows the behaviour that the decoder's tests in
`DataRecordParserTest.java` fix, within the DIF codes and VIF families those
tests use; the implementation class `DataRecord.java` is not modelled:

- `little_endian.dfy` (`LittleEndian`): integer payloads of 2, 3, 4, 6 and 8
  bytes, read little-endian as two's complement and sign-extended to a Java
  `long`. `SignedLE` is the specification. `ReadLong` is the byte loop, proved
  against it. `EncodeLE` is its inverse.
- `vif_catalog.dfy` (`VifCatalog`): the primary VIF table for energy in Wh,
  volume in m³, on time, operating time, flow and return temperature in °C,
  temperature difference in K, and type-F date and time (VIF 0x6D). `Encode`
  reads the table backwards.
- `date_time_f.dfy` (`DateTimeF`): the calendar fields of a type-F (CP32) date
  and time, with their encoder.
- `data_record.dfy` (`DataRecords`): `DecodeRecord` states what decoding the
  record at an offset yields. The class `DataRecord` is the mutable record.
  It is constructed empty, and its `Decode` method fills the value, value type,
  description, unit and multiplier exponent in place. It returns the offset
  just past the record.
- `parser_test.dfy` (`DataRecordParserTest`): every test vector as a lemma,
  plus methods that replay some tests on a fresh `DataRecord` object.
- `wrappers.dfy` (`Wrappers`): `Option` and `Result`.

Java exceptions become `Result.Failure` values: `Truncated`,
`UnsupportedDataField` and `UnsupportedVif`. Java's `null` becomes `None`.
Java's enum constants become Dafny constructors with the same meaning:
`ENERGY` is `Energy`, `WATT_HOUR` is `WattHour`, `DataValueType.LONG` is
`Long`, and so on. Bytes are integers 0..255, and bit tests are written as
arithmetic: bit 7 is `b >= 0x80` and the low nibble is `b % 16`.

## Model

| member | source | states |
|---|---|---|
| LittleEndian.SignedLE | src/test/java/org/openmuc/jmbus/DataRecordParserTest.java:44-72 | a field of n bytes reads as a value in [-2^(8n-1), 2^(8n-1)), and the value is negative exactly when bit 7 of the last byte is set |
| LittleEndian.ReadLong | src/test/java/org/openmuc/jmbus/DataRecordParserTest.java:104-118 | the byte loop returns the two's-complement little-endian reading of the field, and the result lies within the range of a Java long |
| LittleEndian.SignedFitsLong | src/test/java/org/openmuc/jmbus/DataRecordParserTest.java:33-42 | every field of at most eight bytes decodes to a value between Long.MIN_VALUE and Long.MAX_VALUE |
| LittleEndian.AllOnesIsMinusOne | src/test/java/org/openmuc/jmbus/DataRecordParserTest.java:44-72 | an all-0xFF field is -1 at every width, so the sign bit reaches all 64 bits |
| LittleEndian.MaxPatternIsMax | src/test/java/org/openmuc/jmbus/DataRecordParserTest.java:44-72 | 0xFF bytes under a top byte of 0x7F give 2^(8n-1) - 1, the largest value of the width |
| LittleEndian.DecodeEncode | src/test/java/org/openmuc/jmbus/DataRecordParserTest.java:44-72 | encoding any value that fits n bytes and reading it back gives the value |
| LittleEndian.EncodeDecode | src/test/java/org/openmuc/jmbus/DataRecordParserTest.java:44-72 | reading any field and encoding the value at the same width gives the field back |
| VifCatalog.Lookup | src/test/java/org/openmuc/jmbus/DataRecordParserTest.java:120-153 | a VIF entry has no unit exactly when it is the date-and-time entry, carried by the VIFs whose seven low bits are 0x6D; every exponent lies in [-6, 4] |
| VifCatalog.LookupThenEncode | src/test/java/org/openmuc/jmbus/DataRecordParserTest.java:120-153 | each modelled primary VIF is the code that the reverse table gives for its entry |
| VifCatalog.EncodeThenLookup | src/test/java/org/openmuc/jmbus/DataRecordParserTest.java:120-153 | every entry that the reverse table encodes is found again under that code |
| VifCatalog.LookupInjective | src/test/java/org/openmuc/jmbus/DataRecordParserTest.java:120-153 | no two modelled primary VIFs carry the same (description, unit, exponent) triple |
| DateTimeF.DecodeTypeF | src/test/java/org/openmuc/jmbus/DataRecordParserTest.java:151-152 | the four type-F bytes give a year in 2000..2127 and month, day, hour and minute within their bit-field ranges |
| DateTimeF.DecodeEncodeTypeF | src/test/java/org/openmuc/jmbus/DataRecordParserTest.java:151-152 | encoding representable calendar fields and decoding them gives the fields back |
| DateTimeF.EncodeDecodeTypeF | src/test/java/org/openmuc/jmbus/DataRecordParserTest.java:151-152 | decoding four bytes whose flag bits are clear and re-encoding gives the bytes back |
| DataRecords.PayloadLength | src/test/java/org/openmuc/jmbus/DataRecordParserTest.java:44-72 | exactly the data-field codes 2, 3, 4, 6 and 7 are integer codes; codes 2, 3, 4 and 6 give that many bytes and code 7 gives 8 |
| DataRecords.ChainEnd | src/test/java/org/openmuc/jmbus/DataRecordParserTest.java:129 | the VIF sits just past the first byte of the DIF/DIFE chain whose extension bit is clear; every earlier byte of the chain has it set; None means the buffer ends inside the chain |
| DataRecords.DecodeBody | src/test/java/org/openmuc/jmbus/DataRecordParserTest.java:120-153 | from the VIF on: an empty tail fails with Truncated; a decoded record occupies the VIF plus the payload length of its DIF code, within the tail, and carries the catalog entry of a VIF without extension bit |
| DataRecords.DecodeRecord | src/test/java/org/openmuc/jmbus/DataRecordParserTest.java:160-174 | an offset past the buffer fails with Truncated, and a decoded record ends after its offset and within the buffer |
| DataRecords.DecodedValueType | src/test/java/org/openmuc/jmbus/DataRecordParserTest.java:165-173 | a decoded value is a date exactly when the description is DATE_TIME, and otherwise a long within the 64-bit range |
| DataRecords.DifeChainSkipped | src/test/java/org/openmuc/jmbus/DataRecordParserTest.java:127-129 | a DIF whose extension bit announces a DIFE chain decodes to the same record as without the chain, ending that many bytes later |
| DataRecords.DecodeIgnoresFollowingBytes | src/test/java/org/openmuc/jmbus/DataRecordParserTest.java:107 | bytes after a record change neither the decoded record nor the offset where it ends |
| DataRecords.TruncatedRecordFails | src/test/java/org/openmuc/jmbus/DataRecordParserTest.java:104-107 | cutting the buffer anywhere inside a decodable record, header or payload, makes decoding fail with Truncated |
| DataRecords.EncodeThenDecode | src/test/java/org/openmuc/jmbus/DataRecordParserTest.java:120-153 | encoding any encodable record as DIF, VIF and payload and decoding it, whatever follows, gives back the record and its length |
| DataRecords.DecodeThenEncode | src/test/java/org/openmuc/jmbus/DataRecordParserTest.java:120-153 | an integer record whose DIF is below 0x10 (no DIFE, function-field or storage bits) is exactly the encoding of the record it decodes to |
| DataRecords.DataRecord.constructor | src/test/java/org/openmuc/jmbus/DataRecordParserTest.java:34 | a new record holds no value, no value type, no description, no unit and exponent 0 |
| DataRecords.DataRecord.Decode | src/test/java/org/openmuc/jmbus/DataRecordParserTest.java:162-167 | on success the object holds the record DecodeRecord gives and the result is the offset after it; on failure the error is returned and the object is unchanged |
| DataRecords.SkipDifChain | src/test/java/org/openmuc/jmbus/DataRecordParserTest.java:129 | the loop over the DIF and its DIFEs finds the VIF index that ChainEnd specifies |
| DataRecords.ReadBody | src/test/java/org/openmuc/jmbus/DataRecordParserTest.java:120-153 | reading the VIF and the payload gives exactly the record or error that DecodeBody specifies |
| DataRecordParserTest.IntegerRecord | src/test/java/org/openmuc/jmbus/DataRecordParserTest.java:104-118 | a buffer holding one integer record without DIFEs decodes to the signed reading of its payload under its VIF's entry |
| DataRecordParserTest.Decode1AllOnes | src/test/java/org/openmuc/jmbus/DataRecordParserTest.java:24 | `07 04 FF..FF` decodes to the long -1 |
| DataRecordParserTest.Decode1Mixed | src/test/java/org/openmuc/jmbus/DataRecordParserTest.java:24 | `07 04 12 23 34 45 56 67 78 12` decodes to the long 1330927310113874706 (0x1278675645342312) |
| DataRecordParserTest.Int16Vectors | src/test/java/org/openmuc/jmbus/DataRecordParserTest.java:44-48 | `02 03 FF 7F` gives 32767 and `02 03 FF FF` gives -1 |
| DataRecordParserTest.Int24Vectors | src/test/java/org/openmuc/jmbus/DataRecordParserTest.java:50-54 | `03 03 FF FF 7F` gives 8388607 and `03 03 FF FF FF` gives -1 |
| DataRecordParserTest.Int32Vectors | src/test/java/org/openmuc/jmbus/DataRecordParserTest.java:56-60 | `04 03 FF FF FF 7F` gives 2147483647 and the all-0xFF payload gives -1 |
| DataRecordParserTest.Int48Vectors | src/test/java/org/openmuc/jmbus/DataRecordParserTest.java:62-66 | `06 03` with five 0xFF and 0x7F gives 140737488355327, and the all-0xFF payload gives -1 |
| DataRecordParserTest.Int64Vectors | src/test/java/org/openmuc/jmbus/DataRecordParserTest.java:68-72 | `07 03` with seven 0xFF and 0x7F gives Long.MAX_VALUE, and the all-0xFF payload gives -1 |
| DataRecordParserTest.EnergyRecord | src/test/java/org/openmuc/jmbus/DataRecordParserTest.java:122 | `04 07 C8 1E 00 00` decodes to ENERGY, WATT_HOUR, exponent 4, value 7880, six bytes |
| DataRecordParserTest.VolumeRecord | src/test/java/org/openmuc/jmbus/DataRecordParserTest.java:127 | `04 15 FE BF 00 00` decodes to VOLUME, CUBIC_METRE, exponent -1, value 49150 |
| DataRecordParserTest.VolumeRecordWithDife | src/test/java/org/openmuc/jmbus/DataRecordParserTest.java:129 | `84 40 15 F8 BF 00 00` skips the DIFE and decodes to VOLUME, CUBIC_METRE, exponent -1, value 49144, seven bytes |
| DataRecordParserTest.OnTimeRecord | src/test/java/org/openmuc/jmbus/DataRecordParserTest.java:135 | `04 22 38 09 00 00` decodes to ON_TIME, HOUR, exponent 0, value 2360 |
| DataRecordParserTest.OperatingTimeRecord | src/test/java/org/openmuc/jmbus/DataRecordParserTest.java:139 | `04 26 3D 07 00 00` decodes to OPERATING_TIME, HOUR, exponent 0, value 1853 |
| DataRecordParserTest.FlowTemperatureRecord | src/test/java/org/openmuc/jmbus/DataRecordParserTest.java:142 | `02 5A 79 02` decodes to FLOW_TEMPERATURE, DEGREE_CELSIUS, exponent -1, value 633 |
| DataRecordParserTest.ReturnTemperatureRecord | src/test/java/org/openmuc/jmbus/DataRecordParserTest.java:145 | `02 5E A6 01` decodes to RETURN_TEMPERATURE, DEGREE_CELSIUS, exponent -1, value 422 |
| DataRecordParserTest.TemperatureDifferenceRecord | src/test/java/org/openmuc/jmbus/DataRecordParserTest.java:149 | `02 62 D3 00` decodes to TEMPERATURE_DIFFERENCE, KELVIN, exponent -1, value 211 |
| DataRecordParserTest.DateTimeRecord | src/test/java/org/openmuc/jmbus/DataRecordParserTest.java:152 | `04 6D 2B 11 78 11` decodes to DATE_TIME, no unit, exponent 0, and a date value of 24 January 2011, 17:43 |
| DataRecordParserTest.DecodeFresh | src/test/java/org/openmuc/jmbus/DataRecordParserTest.java:33-42 | a new DataRecord decoded from offset 0 holds whatever record DecodeRecord gives for the bytes |
| DataRecordParserTest.TestInt16 | src/test/java/org/openmuc/jmbus/DataRecordParserTest.java:74-118 | replaying testINT16 on fresh objects leaves the value 32767 and then -1, each of type LONG |
| DataRecordParserTest.TestDataRecordsVolumeWithDife | src/test/java/org/openmuc/jmbus/DataRecordParserTest.java:156-175 | replaying vector p3 on a fresh object leaves VOLUME, CUBIC_METRE, exponent -1 and value 49144 |
| DataRecordParserTest.TestDataRecordsDateTime | src/test/java/org/openmuc/jmbus/DataRecordParserTest.java:156-175 | replaying vector p9 on a fresh object leaves DATE_TIME, no unit, exponent 0 and a value of type DATE |

## Left out

- DIF data-field codes other than 0x02, 0x03, 0x04, 0x06 and 0x07 are not modelled. These are no data, 1 byte, the IEEE-754 reals, BCD, LVAR, selection for readout, and the special functions 0x0F, 0x1F and 0x2F. Decoding them fails: with a supported VIF after them, with `UnsupportedDataField`; otherwise with `UnsupportedVif` or `Truncated`, in the error order given below. The tests use none of them, and the real codes need floating point.
- VIFs outside the tested families, a VIF with its extension bit set (VIFE chains), plain-text VIF 0x7C and manufacturer-specific VIFs are not modelled. They fail with `UnsupportedVif`.
- VIF 0x6D is modelled only with DIF code 0x04 (type F). Other widths under 0x6D fail with `UnsupportedDataField`.
- The order in which errors are reported is the model's own: a truncated header, then an unsupported VIF, then an unsupported data-field code, then a truncated payload. The library's behaviour here is not modelled.
- Storage number, tariff, subunit and function field are not modelled. DIFEs are consumed but their bits are not accumulated, and the tests assert none of these fields.
- The length of a DIFE chain is not capped. It ends where a byte has a clear extension bit, or where the buffer ends.
- The type-F date is modelled as its calendar fields. The test's epoch-millisecond value, 1295887380035 within 100 ms, is not modelled: it depends on `java.util.Date`, the local time zone (the vector reads 17:43 in UTC+1) and the clock's milliseconds. The invalid and summer-time flag bits are not decoded.
- For dates, the multiplier exponent is 0, as the test asserts. It is not a separate "not applicable" value.
- On failure, `DataRecord.Decode` leaves the object unchanged. The Java library may leave header fields partly set; the library's behaviour here is not modelled.
- Getters (`getDataValue`, `getDataValueType`, `getDescription`, `getUnit`, `getMultiplierExponent`) are the class's public fields.
- `HexUtils.hexToBytes` is not part of this model. Test inputs are written as byte sequences.
- The connection tests (`MBusConnectionTest.java`: serial and TCP builders, frame reading, listen-before-talk) are I/O plumbing. Their frames depend on message data that is not part of this model.
- The variable data structure, frame decoding, checksum and telegram resynchronisation are outside the single-record decoder.
