/** The register store of one slave device: four banks of 65536 cells each. */
module Registers {
  import opened Modbus

  /** Every bank is addressed by a 16-bit register number. */
  const BankSize: nat := 0x1_0000

  /** Coils and discrete inputs: one byte per cell, where any non-zero byte reads as ON. */
  type BitBank = s: seq<byte> | |s| == BankSize witness seq(BankSize, _ => 0)

  /** Holding and input registers: one 16-bit word per cell. */
  type WordBank = s: seq<uint16> | |s| == BankSize witness seq(BankSize, _ => 0)

  datatype Device = Device(
    discreteInputs: BitBank,
    coils: BitBank,
    holdingRegisters: WordBank,
    inputRegisters: WordBank)

  /** The memory of a freshly created device. */
  function ZeroDevice(): (d: Device)
    ensures forall i :: 0 <= i < BankSize ==>
      d.discreteInputs[i] == 0 && d.coils[i] == 0 && d.holdingRegisters[i] == 0 && d.inputRegisters[i] == 0
  {
    Device(seq(BankSize, _ => 0), seq(BankSize, _ => 0), seq(BankSize, _ => 0), seq(BankSize, _ => 0))
  }
}
