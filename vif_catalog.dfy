/**
 * The primary VIF table of EN 13757-3 restricted to the code families the
 * decoder's tests exercise. A primary VIF is written e.xxxxxxx: bit 7 (e)
 * announces a VIFE and the seven low bits select the description, the unit
 * and the decimal exponent of the value.
 */
module VifCatalog {
  import opened Wrappers
  import opened LittleEndian

  datatype Description =
    | Energy | Volume | OnTime | OperatingTime
    | FlowTemperature | ReturnTemperature | TemperatureDifference | DateTime

  datatype DlmsUnit =
    | WattHour | CubicMetre | Second | Minute | Hour | Day | DegreeCelsius | Kelvin

  /** What a VIF says about the value that follows it. */
  datatype VifEntry = VifEntry(description: Description, unit: Option<DlmsUnit>, multiplierExponent: int)

  /** The time unit selected by the two low bits nn of an on-time or operating-time VIF. */
  function TimeUnit(nn: nat): DlmsUnit
    requires nn < 4
  {
    match nn
    case 0 => Second
    case 1 => Minute
    case 2 => Hour
    case 3 => Day
  }

  function TimeUnitCode(u: DlmsUnit): Option<nat>
  {
    match u
    case Second => Some(0)
    case Minute => Some(1)
    case Hour => Some(2)
    case Day => Some(3)
    case _ => None
  }

  /** Code of the type-F date and time VIF (e1101101). */
  const DATE_TIME_VIF: byte := 0x6D

  /**
   * The catalog entry of a primary VIF, or None when its seven low bits are
   * outside the modelled families. The extension bit does not take part.
   */
  function Lookup(vif: byte): (r: Option<VifEntry>)
    ensures r.Some? ==> (r.value.unit == None <==> r.value.description == DateTime)
    ensures r.Some? ==> -6 <= r.value.multiplierExponent <= 4
    ensures r.Some? && r.value.description == DateTime ==> vif % 128 == DATE_TIME_VIF
  {
    var code := vif % 128;
    if code < 0x08 then        // e0000nnn  energy, 10^(nnn-3) Wh
      Some(VifEntry(Energy, Some(WattHour), code % 8 - 3))
    else if 0x10 <= code < 0x18 then  // e0010nnn  volume, 10^(nnn-6) m^3
      Some(VifEntry(Volume, Some(CubicMetre), code % 8 - 6))
    else if 0x20 <= code < 0x24 then  // e01000nn  on time
      Some(VifEntry(OnTime, Some(TimeUnit(code % 4)), 0))
    else if 0x24 <= code < 0x28 then  // e01001nn  operating time
      Some(VifEntry(OperatingTime, Some(TimeUnit(code % 4)), 0))
    else if 0x58 <= code < 0x5C then  // e10110nn  flow temperature, 10^(nn-3) degC
      Some(VifEntry(FlowTemperature, Some(DegreeCelsius), code % 4 - 3))
    else if 0x5C <= code < 0x60 then  // e10111nn  return temperature, 10^(nn-3) degC
      Some(VifEntry(ReturnTemperature, Some(DegreeCelsius), code % 4 - 3))
    else if 0x60 <= code < 0x64 then  // e11000nn  temperature difference, 10^(nn-3) K
      Some(VifEntry(TemperatureDifference, Some(Kelvin), code % 4 - 3))
    else if code == DATE_TIME_VIF then
      Some(VifEntry(DateTime, None, 0))
    else
      None
  }

  /**
   * The primary VIF (extension bit clear) that carries an entry, or None
   * when no modelled VIF carries it: the table read backwards.
   */
  function Encode(e: VifEntry): (r: Option<byte>)
    ensures r.Some? ==> r.value < 0x80
  {
    var x := e.multiplierExponent;
    match e.description
    case Energy =>
      if e.unit == Some(WattHour) && -3 <= x <= 4 then Some(x + 3) else None
    case Volume =>
      if e.unit == Some(CubicMetre) && -6 <= x <= 1 then Some(0x10 + x + 6) else None
    case OnTime =>
      if e.unit.Some? && TimeUnitCode(e.unit.value).Some? && x == 0
      then Some(0x20 + TimeUnitCode(e.unit.value).value) else None
    case OperatingTime =>
      if e.unit.Some? && TimeUnitCode(e.unit.value).Some? && x == 0
      then Some(0x24 + TimeUnitCode(e.unit.value).value) else None
    case FlowTemperature =>
      if e.unit == Some(DegreeCelsius) && -3 <= x <= 0 then Some(0x58 + x + 3) else None
    case ReturnTemperature =>
      if e.unit == Some(DegreeCelsius) && -3 <= x <= 0 then Some(0x5C + x + 3) else None
    case TemperatureDifference =>
      if e.unit == Some(Kelvin) && -3 <= x <= 0 then Some(0x60 + x + 3) else None
    case DateTime =>
      if e.unit == None && x == 0 then Some(DATE_TIME_VIF) else None
  }

  /** Every modelled VIF is the one code that carries its entry. */
  lemma LookupThenEncode(vif: byte)
    requires vif < 0x80 && Lookup(vif).Some?
    ensures Encode(Lookup(vif).value) == Some(vif)
  {
    assert vif % 128 == vif;
    if vif < 0x08 {
      assert vif % 8 == vif;
    } else if 0x10 <= vif < 0x18 {
      assert vif % 8 == vif - 0x10;
    } else if 0x20 <= vif < 0x24 {
      assert vif % 4 == vif - 0x20;
    } else if 0x24 <= vif < 0x28 {
      assert vif % 4 == vif - 0x24;
    } else if 0x58 <= vif < 0x5C {
      assert vif % 4 == vif - 0x58;
    } else if 0x5C <= vif < 0x60 {
      assert vif % 4 == vif - 0x5C;
    } else if 0x60 <= vif < 0x64 {
      assert vif % 4 == vif - 0x60;
    }
  }

  /** Every entry the table can carry is found again under its code. */
  lemma EncodeThenLookup(e: VifEntry)
    requires Encode(e).Some?
    ensures Lookup(Encode(e).value) == Some(e)
  {
    var vif := Encode(e).value;
    assert vif % 128 == vif;
    match e.description
    case OnTime =>
      assert vif % 4 == TimeUnitCode(e.unit.value).value;
    case OperatingTime =>
      assert vif % 4 == TimeUnitCode(e.unit.value).value;
    case _ =>
  }

  /** No two modelled VIFs carry the same entry. */
  lemma LookupInjective(a: byte, b: byte)
    requires a < 0x80 && b < 0x80 && Lookup(a).Some? && Lookup(a) == Lookup(b)
    ensures a == b
  {
    LookupThenEncode(a);
    LookupThenEncode(b);
  }
}
