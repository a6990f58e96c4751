/** The operating and status flag records and their packing into the status exchange (data-ID 0
    of the OpenTherm Protocol Specification v2.2: master status in the high byte, slave status
    in the low byte). */
module Flags {

  /** The four enable flags the thermostat sends to the heat pump. */
  datatype OperatingFlags = OperatingFlags(enableCH: bool, enableDHW: bool, enableCooling: bool, enableOTC: bool)

  /** The five slave status flags the heat pump reports. */
  datatype StatusFlags = StatusFlags(fault: bool, chMode: bool, dhwMode: bool, flame: bool, cooling: bool)

  function Bit(b: bool): bv16 {
    if b then 1 else 0
  }

  predicate IsSet(w: bv16, i: nat)
    requires i < 16
  {
    (w >> i) & 1 == 1
  }

  /** `getStatus`: CH, DHW, Cooling and OTC enable in bits 8 to 11, CH2 (bit 12) off, the low
      byte (the slave's half of the frame) zero. */
  function MasterStatus(f: OperatingFlags): (w: bv16)
    ensures w & 0xF0FF == 0
    ensures IsSet(w, 8) == f.enableCH && IsSet(w, 9) == f.enableDHW
    ensures IsSet(w, 10) == f.enableCooling && IsSet(w, 11) == f.enableOTC
  {
    var flags: bv16 := Bit(f.enableCH) | (Bit(f.enableDHW) << 1) | (Bit(f.enableCooling) << 2) | (Bit(f.enableOTC) << 3);
    flags << 8
  }

  /** How a slave reads the master status byte (bit 0 CH enable, bit 1 DHW enable, bit 2 cooling
      enable, bit 3 OTC active), with the CH2 enable of bit 4 returned beside it. */
  function ReadMasterStatus(w: bv16): (OperatingFlags, bool) {
    (OperatingFlags(IsSet(w, 8), IsSet(w, 9), IsSet(w, 10), IsSet(w, 11)), IsSet(w, 12))
  }

  /** The packed master status reads back as the flags it came from, with CH2 disabled. */
  lemma MasterStatusRoundTrip(f: OperatingFlags)
    ensures ReadMasterStatus(MasterStatus(f)) == (f, false)
  {
    var w := MasterStatus(f);
    assert (w >> 12) & 1 == 0 by {
      assert w & 0xF0FF == 0;
    }
  }

  /** `setStatus`: the slave flags are bits 0 to 4 of the response frame. */
  function SlaveStatus(data: bv32): (s: StatusFlags)
    ensures SlaveStatusByte(s) == data & 0x1F
  {
    StatusFlags(data & 0x01 != 0, data & 0x02 != 0, data & 0x04 != 0, data & 0x08 != 0, data & 0x10 != 0)
  }

  /** The slave status byte a heat pump sends for a set of flags (CH2 mode and diagnostics off). */
  function SlaveStatusByte(s: StatusFlags): bv32 {
    (if s.fault then 0x01 else 0) | (if s.chMode then 0x02 else 0) | (if s.dhwMode then 0x04 else 0)
      | (if s.flame then 0x08 else 0) | (if s.cooling then 0x10 else 0)
  }

  /** Decoding recovers every flag the slave encoded, whatever else the frame carries above
      bit 4 (CH2 mode, diagnostics, the data-ID and message type). */
  lemma SlaveStatusRoundTrip(s: StatusFlags, upper: bv32)
    requires upper & 0x1F == 0
    ensures SlaveStatus(SlaveStatusByte(s) | upper) == s
  {
  }

  /** `setStatus` reads nothing but bits 0 to 4. */
  lemma SlaveStatusLowBitsOnly(data: bv32)
    ensures SlaveStatus(data) == SlaveStatus(data & 0x1F)
  {
  }
}
