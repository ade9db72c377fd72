/**
 * Shared vocabulary of the pass-through interrupt model: error codes, an
 * Option type, the virtual-machine handle and the build-time configuration.
 */
module Types {
  // Error numbers returned (negated) by the hypervisor; ACRN uses the
  // Linux numbering. errno.h is not part of this model.
  const EACCES: int := 13
  const EFAULT: int := 14
  const ENODEV: int := 19
  const EINVAL: int := 22

  datatype Option<T> = None | Some(value: T)

  /** 2^64, for explicit uint64_t wrap-around. */
  const U64: int := 0x1_0000_0000_0000_0000
  /** 2^32, for explicit uint32_t wrap-around. */
  const U32: int := 0x1_0000_0000
  /** 2^16, for explicit uint16_t truncation. */
  const U16: int := 0x1_0000

  type u16 = x: int | 0 <= x < U16
  type u32 = x: int | 0 <= x < U32
  type u64 = x: int | 0 <= x < U64

  /**
   * A virtual machine as the interrupt core sees it: its identity, whether
   * it is the service VM (is_sos_vm) and its configured interrupt
   * injection delay in cycles (intr_inject_delay_delta).
   */
  datatype Vm = Vm(id: nat, isService: bool, injectDelayDelta: nat)

  // Build-time configuration (the config headers are not part of this
  // model; the values are ACRN's usual defaults).
  const MAX_PT_IRQ_ENTRIES: nat := 256
  const MAX_VM_NUM: nat := 16
  const MAX_PCPU_NUM: nat := 8
  const MAX_IOAPIC_NUM: nat := 1
  const MAX_IOAPIC_LINES: nat := 120
}
