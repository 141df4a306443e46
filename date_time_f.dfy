/**
 * Data type F of EN 13757-3 (compound CP32, date and time), the payload
 * of a four-byte field under VIF 0x6D. Bit layout, least significant byte
 * first:
 *   byte 0  bits 0-5 minute
 *   byte 1  bits 0-4 hour
 *   byte 2  bits 0-4 day,   bits 5-7 year bits 0-2
 *   byte 3  bits 0-3 month, bits 4-7 year bits 3-6
 * The seven year bits count years from 2000. The remaining flag bits
 * (invalid, summer time) do not take part in the calendar fields.
 */
module DateTimeF {
  import opened LittleEndian

  datatype CalendarTime = CalendarTime(year: int, month: int, day: int, hour: int, minute: int)

  /** The ranges the bit fields of a type-F value can express. */
  predicate Representable(t: CalendarTime)
  {
    && 2000 <= t.year < 2128
    && 0 <= t.month < 16
    && 0 <= t.day < 32
    && 0 <= t.hour < 32
    && 0 <= t.minute < 64
  }

  function DecodeTypeF(b: seq<byte>): (t: CalendarTime)
    requires |b| == 4
    ensures Representable(t)
  {
    CalendarTime(
      year := 2000 + (b[2] as int) / 32 + 8 * ((b[3] as int) / 16),
      month := b[3] % 16,
      day := b[2] % 32,
      hour := b[1] % 32,
      minute := b[0] % 64)
  }

  /** The four bytes of a type-F value with every flag bit clear. */
  function EncodeTypeF(t: CalendarTime): (b: seq<byte>)
    requires Representable(t)
    ensures |b| == 4 && b[0] < 64 && b[1] < 32
  {
    var y := t.year - 2000;
    [t.minute, t.hour, t.day + 32 * (y % 8), t.month + 16 * (y / 8)]
  }

  /** Encoding calendar fields and decoding them gives the fields back. */
  lemma DecodeEncodeTypeF(t: CalendarTime)
    requires Representable(t)
    ensures DecodeTypeF(EncodeTypeF(t)) == t
  {
  }

  /** Decoding four bytes whose flag bits are clear and encoding the fields gives the bytes back. */
  lemma EncodeDecodeTypeF(b: seq<byte>)
    requires |b| == 4 && b[0] < 64 && b[1] < 32
    ensures EncodeTypeF(DecodeTypeF(b)) == b
  {
  }
}
