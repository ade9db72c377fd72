/**
 * Decoders and encoders for the Intel VT-d remapping-unit registers: the
 * version, capability and extended-capability registers, the context-cache,
 * IOTLB and interrupt-entry-cache command fields, the fault status register
 * and the upper half of a fault recording register. Each decoder is stated
 * against the register bits it reads: the result, moved back into place, is
 * exactly those bits of the register.
 */
module Vtd {
  /** dmar_ver_major: bits 7:4 of the version register. */
  function DmarVerMajor(version: bv64): (r: bv8)
    ensures r <= 0xF && (r as bv64) << 4 == version & 0xF0
  {
    ((version & 0xFF) as bv8 & 0xF0) >> 4
  }

  /** dmar_ver_minor: bits 3:0 of the version register. */
  function DmarVerMinor(version: bv64): (r: bv8)
    ensures r <= 0xF && r as bv64 == version & 0xF
  {
    (version & 0xFF) as bv8 & 0x0F
  }

  /** The version register's low byte is the pair (major, minor). */
  lemma DmarVersionSplit(version: bv64)
    ensures (DmarVerMajor(version) << 4) | DmarVerMinor(version) == (version & 0xFF) as bv8
  {
  }

  // ------------------------------------------------ capability register
  /** iommu_cap_pi: bit 59, posted interrupts supported. */
  function IommuCapPi(cap: bv64): (r: bv8)
    ensures r <= 1 && (r == 1 <==> cap & 0x800000000000000 != 0)
  {
    ((cap >> 59) & 0xFF) as bv8 & 1
  }

  /** iommu_cap_read_drain: bit 55, read draining supported. */
  function IommuCapReadDrain(cap: bv64): (r: bv8)
    ensures r <= 1 && (r == 1 <==> cap & 0x80000000000000 != 0)
  {
    ((cap >> 55) & 0xFF) as bv8 & 1
  }

  /** iommu_cap_write_drain: bit 54, write draining supported. */
  function IommuCapWriteDrain(cap: bv64): (r: bv8)
    ensures r <= 1 && (r == 1 <==> cap & 0x40000000000000 != 0)
  {
    ((cap >> 54) & 0xFF) as bv8 & 1
  }

  /** iommu_cap_pgsel_inv: bit 39, page-selective invalidation supported. */
  function IommuCapPgselInv(cap: bv64): (r: bv8)
    ensures r <= 1 && (r == 1 <==> cap & 0x8000000000 != 0)
  {
    ((cap >> 39) & 0xFF) as bv8 & 1
  }

  /** iommu_cap_zlr: bit 22, zero-length reads supported. */
  function IommuCapZlr(cap: bv64): (r: bv8)
    ensures r <= 1 && (r == 1 <==> cap & 0x400000 != 0)
  {
    ((cap >> 22) & 0xFF) as bv8 & 1
  }

  /** iommu_cap_isoch: bit 23, isochrony supported. */
  function IommuCapIsoch(cap: bv64): (r: bv8)
    ensures r <= 1 && (r == 1 <==> cap & 0x800000 != 0)
  {
    ((cap >> 23) & 0xFF) as bv8 & 1
  }

  /** iommu_cap_caching_mode: bit 7, caching mode. */
  function IommuCapCachingMode(cap: bv64): (r: bv8)
    ensures r <= 1 && (r == 1 <==> cap & 0x80 != 0)
  {
    ((cap >> 7) & 0xFF) as bv8 & 1
  }

  /** iommu_cap_phmr: bit 6, protected high-memory region. */
  function IommuCapPhmr(cap: bv64): (r: bv8)
    ensures r <= 1 && (r == 1 <==> cap & 0x40 != 0)
  {
    ((cap >> 6) & 0xFF) as bv8 & 1
  }

  /** iommu_cap_plmr: bit 5, protected low-memory region. */
  function IommuCapPlmr(cap: bv64): (r: bv8)
    ensures r <= 1 && (r == 1 <==> cap & 0x20 != 0)
  {
    ((cap >> 5) & 0xFF) as bv8 & 1
  }

  /** iommu_cap_afl: bit 3, advanced fault logging. */
  function IommuCapAfl(cap: bv64): (r: bv8)
    ensures r <= 1 && (r == 1 <==> cap & 0x8 != 0)
  {
    ((cap >> 3) & 0xFF) as bv8 & 1
  }

  /** iommu_cap_max_amask_val: bits 53:48, maximum address mask value. */
  function IommuCapMaxAmaskVal(cap: bv64): (r: bv8)
    ensures r <= 0x3F && (r as bv64) << 48 == cap & 0x3F000000000000
  {
    ((cap >> 48) & 0xFF) as bv8 & 0x3F
  }

  /** iommu_cap_super_page_val: bits 37:34, super-page support. */
  function IommuCapSuperPageVal(cap: bv64): (r: bv8)
    ensures r <= 0xF && (r as bv64) << 34 == cap & 0x3C00000000
  {
    ((cap >> 34) & 0xFF) as bv8 & 0xF
  }

  /** iommu_cap_sagaw: bits 12:8, supported adjusted guest address widths. */
  function IommuCapSagaw(cap: bv64): (r: bv8)
    ensures r <= 0x1F && (r as bv64) << 8 == cap & 0x1F00
  {
    ((cap >> 8) & 0xFF) as bv8 & 0x1F
  }

  /** iommu_cap_num_fault_regs: bits 47:40 hold the count minus one. */
  function IommuCapNumFaultRegs(cap: bv64): (r: bv16)
    ensures 1 <= r <= 256
    ensures ((r - 1) as bv64) << 40 == cap & 0xFF_0000_0000_00
  {
    (((cap >> 40) & 0xFFFF) as bv16 & 0xFF) + 1
  }

  /** iommu_cap_fault_reg_offset: bits 33:24 count 16-byte units. */
  function IommuCapFaultRegOffset(cap: bv64): (r: bv16)
    ensures r % 16 == 0 && r <= 0x3FF0
    ensures ((r / 16) as bv64) << 24 == cap & 0x3_FF00_0000
  {
    (((cap >> 24) & 0xFFFF) as bv16 & 0x3FF) * 16
  }

  /**
   * iommu_cap_max_fault_reg_offset: the end of the fault recording
   * registers. The sum never wraps its 16-bit result.
   */
  function IommuCapMaxFaultRegOffset(cap: bv64): (r: bv16)
    ensures r as bv32 == IommuCapFaultRegOffset(cap) as bv32 + 16 * IommuCapNumFaultRegs(cap) as bv32
    ensures r <= 0x3FF0 + 0x1000
  {
    IommuCapFaultRegOffset(cap) + IommuCapNumFaultRegs(cap) * 16
  }

  /** iommu_cap_mgaw: bits 21:16 hold the maximum guest address width minus one. */
  function IommuCapMgaw(cap: bv64): (r: bv8)
    ensures 1 <= r <= 64
    ensures ((r - 1) as bv64) << 16 == cap & 0x3F_0000
  {
    (((cap >> 16) & 0xFF) as bv8 & 0x3F) + 1
  }

  /** iommu_cap_ndoms: 2^(4 + 2 * ND) domains, ND being bits 2:0. */
  function IommuCapNdoms(cap: bv64): (r: bv32)
    ensures 16 <= r <= 0x4_0000 && r & (r - 1) == 0
  {
    1 << (4 + 2 * ((cap & 0xFF) as bv8 & 7) as bv32)
  }

  /** Each step of the ND field multiplies the number of domains by four. */
  lemma IommuCapNdomsStep(cap: bv64)
    requires cap & 7 < 7
    ensures IommuCapNdoms(cap + 1) == 4 * IommuCapNdoms(cap)
  {
  }

  // --------------------------------------- extended capability register

  /** iommu_ecap_c: bit 0, page-walk coherency. */
  function IommuEcapC(ecap: bv64): (r: bv8)
    ensures r <= 1 && (r == 1 <==> ecap & 0x1 != 0)
  {
    ((ecap >> 0) & 0xFF) as bv8 & 1
  }

  /** iommu_ecap_qi: bit 1, queued invalidation. */
  function IommuEcapQi(ecap: bv64): (r: bv8)
    ensures r <= 1 && (r == 1 <==> ecap & 0x2 != 0)
  {
    ((ecap >> 1) & 0xFF) as bv8 & 1
  }

  /** iommu_ecap_dt: bit 2, device TLB. */
  function IommuEcapDt(ecap: bv64): (r: bv8)
    ensures r <= 1 && (r == 1 <==> ecap & 0x4 != 0)
  {
    ((ecap >> 2) & 0xFF) as bv8 & 1
  }

  /** iommu_ecap_ir: bit 3, interrupt remapping. */
  function IommuEcapIr(ecap: bv64): (r: bv8)
    ensures r <= 1 && (r == 1 <==> ecap & 0x8 != 0)
  {
    ((ecap >> 3) & 0xFF) as bv8 & 1
  }

  /** iommu_ecap_eim: bit 4, extended interrupt mode. */
  function IommuEcapEim(ecap: bv64): (r: bv8)
    ensures r <= 1 && (r == 1 <==> ecap & 0x10 != 0)
  {
    ((ecap >> 4) & 0xFF) as bv8 & 1
  }

  /** iommu_ecap_pt: bit 6, pass-through translation. */
  function IommuEcapPt(ecap: bv64): (r: bv8)
    ensures r <= 1 && (r == 1 <==> ecap & 0x40 != 0)
  {
    ((ecap >> 6) & 0xFF) as bv8 & 1
  }

  /** iommu_ecap_ecs: bit 24, extended context. */
  function IommuEcapEcs(ecap: bv64): (r: bv8)
    ensures r <= 1 && (r == 1 <==> ecap & 0x1000000 != 0)
  {
    ((ecap >> 24) & 0xFF) as bv8 & 1
  }

  /** iommu_ecap_mts: bit 25, memory type. */
  function IommuEcapMts(ecap: bv64): (r: bv8)
    ensures r <= 1 && (r == 1 <==> ecap & 0x2000000 != 0)
  {
    ((ecap >> 25) & 0xFF) as bv8 & 1
  }

  /** iommu_ecap_nest: bit 26, nested translation. */
  function IommuEcapNest(ecap: bv64): (r: bv8)
    ensures r <= 1 && (r == 1 <==> ecap & 0x4000000 != 0)
  {
    ((ecap >> 26) & 0xFF) as bv8 & 1
  }

  /** iommu_ecap_dis: bit 27, deferred invalidate. */
  function IommuEcapDis(ecap: bv64): (r: bv8)
    ensures r <= 1 && (r == 1 <==> ecap & 0x8000000 != 0)
  {
    ((ecap >> 27) & 0xFF) as bv8 & 1
  }

  /** iommu_ecap_prs: bit 29, page requests. */
  function IommuEcapPrs(ecap: bv64): (r: bv8)
    ensures r <= 1 && (r == 1 <==> ecap & 0x20000000 != 0)
  {
    ((ecap >> 29) & 0xFF) as bv8 & 1
  }

  /** iommu_ecap_ers: bit 30, execute requests. */
  function IommuEcapErs(ecap: bv64): (r: bv8)
    ensures r <= 1 && (r == 1 <==> ecap & 0x40000000 != 0)
  {
    ((ecap >> 30) & 0xFF) as bv8 & 1
  }

  /** iommu_ecap_srs: bit 31, supervisor requests. */
  function IommuEcapSrs(ecap: bv64): (r: bv8)
    ensures r <= 1 && (r == 1 <==> ecap & 0x80000000 != 0)
  {
    ((ecap >> 31) & 0xFF) as bv8 & 1
  }

  /** iommu_ecap_nwfs: bit 33, no write flag. */
  function IommuEcapNwfs(ecap: bv64): (r: bv8)
    ensures r <= 1 && (r == 1 <==> ecap & 0x200000000 != 0)
  {
    ((ecap >> 33) & 0xFF) as bv8 & 1
  }

  /** iommu_ecap_eafs: bit 34, extended accessed flag. */
  function IommuEcapEafs(ecap: bv64): (r: bv8)
    ensures r <= 1 && (r == 1 <==> ecap & 0x400000000 != 0)
  {
    ((ecap >> 34) & 0xFF) as bv8 & 1
  }

  /** iommu_ecap_pasid: bit 40, process address space IDs. */
  function IommuEcapPasid(ecap: bv64): (r: bv8)
    ensures r <= 1 && (r == 1 <==> ecap & 0x10000000000 != 0)
  {
    ((ecap >> 40) & 0xFF) as bv8 & 1
  }

  /** iommu_ecap_dit: bit 41, device TLB invalidation throttling. */
  function IommuEcapDit(ecap: bv64): (r: bv8)
    ensures r <= 1 && (r == 1 <==> ecap & 0x20000000000 != 0)
  {
    ((ecap >> 41) & 0xFF) as bv8 & 1
  }

  /** iommu_ecap_pds: bit 42, page drain. */
  function IommuEcapPds(ecap: bv64): (r: bv8)
    ensures r <= 1 && (r == 1 <==> ecap & 0x40000000000 != 0)
  {
    ((ecap >> 42) & 0xFF) as bv8 & 1
  }

  /** iommu_ecap_iro: bits 17:8, IOTLB register offset. */
  function IommuEcapIro(ecap: bv64): (r: bv16)
    ensures r <= 0x3FF && (r as bv64) << 8 == ecap & 0x3FF00
  {
    ((ecap >> 8) & 0xFFFF) as bv16 & 0x3FF
  }

  /** iommu_ecap_mhmv: bits 23:20, maximum handle mask value. */
  function IommuEcapMhmv(ecap: bv64): (r: bv8)
    ensures r <= 0xF && (r as bv64) << 20 == ecap & 0xF00000
  {
    ((ecap >> 20) & 0xFF) as bv8 & 0xF
  }

  /** iommu_ecap_pss: bits 39:35, PASID size. */
  function IommuEcapPss(ecap: bv64): (r: bv8)
    ensures r <= 0x1F && (r as bv64) << 35 == ecap & 0xF800000000
  {
    ((ecap >> 35) & 0xFF) as bv8 & 0x1F
  }

  // ------------------------------------------------------ command fields

  /** dma_ccmd_fm: the function mask in bits 49:48, every other bit clear. */
  function DmaCcmdFm(fm: bv8): (r: bv64)
    ensures r & 0xFFFC_FFFF_FFFF_FFFF == 0 && (r >> 48) as bv8 == fm & 3
  {
    ((fm as bv64) & 0x3) << 48
  }

  /** dma_ccmd_sid: the source id in bits 47:32, every other bit clear. */
  function DmaCcmdSid(sid: bv16): (r: bv64)
    ensures r & 0xFFFF_0000_FFFF_FFFF == 0
    ensures (r >> 32) as bv16 == sid
  {
    var w: bv64 := sid as bv64;
    (w & 0xFFFF) << 32
  }

  /** dma_ccmd_did: the domain id in bits 31:16, every other bit clear. */
  function DmaCcmdDid(did: bv16): (r: bv64)
    ensures r & 0xFFFF_FFFF_0000_FFFF == 0
    ensures (r >> 16) as bv16 == did
  {
    var w: bv64 := did as bv64;
    (w & 0xFFFF) << 16
  }

  /**
   * The three context-command fields never overlap, so a command built by
   * OR-ing them gives each one back.
   */
  lemma DmaCcmdFieldsDisjoint(fm: bv8, sid: bv16, did: bv16)
    ensures DmaCcmdFm(fm) & DmaCcmdSid(sid) == 0 && DmaCcmdSid(sid) & DmaCcmdDid(did) == 0
    ensures DmaCcmdFm(fm) & DmaCcmdDid(did) == 0
    ensures var cmd := DmaCcmdFm(fm) | DmaCcmdSid(sid) | DmaCcmdDid(did);
      ((cmd >> 48) & 3) as bv8 == fm & 3 && ((cmd >> 32) & 0xFFFF) as bv16 == sid
      && ((cmd >> 16) & 0xFFFF) as bv16 == did
  {
  }

  /** dma_ccmd_get_caig_32: bits 28:27 of the upper command word. */
  function DmaCcmdGetCaig32(gaig: bv32): (r: bv8)
    ensures r <= 3 && (r as bv32) << 27 == gaig & 0x1800_0000
  {
    ((gaig >> 27) & 0xFF) as bv8 & 0x3
  }

  /** dma_iotlb_did: the domain id in bits 31:16, every other bit clear. */
  function DmaIotlbDid(did: bv16): (r: bv64)
    ensures r & 0xFFFF_FFFF_0000_FFFF == 0
    ensures (r >> 16) as bv16 == did
  {
    var w: bv64 := did as bv64;
    (w & 0xFFFF) << 16
  }

  /** dma_iotlb_get_iaig_32: bits 26:25 of the upper IOTLB word. */
  function DmaIotlbGetIaig32(iai: bv32): (r: bv8)
    ensures r <= 3 && (r as bv32) << 25 == iai & 0x0600_0000
  {
    ((iai >> 25) & 0xFF) as bv8 & 0x3
  }

  /** dma_iotlb_invl_addr_am: the address mask keeps its low six bits. */
  function DmaIotlbInvlAddrAm(am: bv8): (r: bv8)
    ensures r <= 0x3F && r == am & 0x3F
  {
    am & 0x3F
  }

  /**
   * dma_iec_index: the interrupt index in bits 47:32 and the index mask in
   * bits 31:27, every other bit clear.
   */
  function DmaIecIndex(index: bv16, indexMask: bv8): (r: bv64)
    ensures r & 0xFFFF_0000_07FF_FFFF == 0
    ensures (r >> 32) as bv16 == index
    ensures ((r >> 27) & 0x1F) as bv8 == indexMask & 0x1F
  {
    var i: bv64 := index as bv64;
    var m: bv64 := (indexMask & 0x1F) as bv64;
    (i << 32) | (m << 27)
  }

  // -------------------------------------------------- fault status register

  /** primary fault overflow: bit 0. */
  function DmaFstsPfo(fsts: bv32): (r: bool)
    ensures r <==> fsts & 0x1 != 0
  {
    ((fsts >> 0) & 1) == 1
  }

  /** primary pending fault: bit 1. */
  function DmaFstsPpf(fsts: bv32): (r: bool)
    ensures r <==> fsts & 0x2 != 0
  {
    ((fsts >> 1) & 1) == 1
  }

  /** advanced fault overflow: bit 2. */
  function DmaFstsAfo(fsts: bv32): (r: bool)
    ensures r <==> fsts & 0x4 != 0
  {
    ((fsts >> 2) & 1) == 1
  }

  /** advanced pending fault: bit 3. */
  function DmaFstsApf(fsts: bv32): (r: bool)
    ensures r <==> fsts & 0x8 != 0
  {
    ((fsts >> 3) & 1) == 1
  }

  /** invalidation queue error: bit 4. */
  function DmaFstsIqe(fsts: bv32): (r: bool)
    ensures r <==> fsts & 0x10 != 0
  {
    ((fsts >> 4) & 1) == 1
  }

  /** invalidation completion error: bit 5. */
  function DmaFstsIce(fsts: bv32): (r: bool)
    ensures r <==> fsts & 0x20 != 0
  {
    ((fsts >> 5) & 1) == 1
  }

  /** invalidation time-out error: bit 6. */
  function DmaFstsIte(fsts: bv32): (r: bool)
    ensures r <==> fsts & 0x40 != 0
  {
    ((fsts >> 6) & 1) == 1
  }

  /** page request overflow: bit 7. */
  function DmaFstsPro(fsts: bv32): (r: bool)
    ensures r <==> fsts & 0x80 != 0
  {
    ((fsts >> 7) & 1) == 1
  }

  /** dma_fsts_fri: the fault record index, bits 15:8. */
  function DmaFstsFri(fsts: bv32): (r: bv8)
    ensures (r as bv32) << 8 == fsts & 0xFF00
  {
    ((fsts >> 8) & 0xFF) as bv8 & 0xFF
  }

  // ------------------------------------ fault recording register, upper half

  /** fault record valid: bit 63. */
  function DmaFrcdUpF(up: bv64): (r: bool)
    ensures r <==> up & 0x8000000000000000 != 0
  {
    ((up >> 63) & 1) == 1
  }

  /** PASID present: bit 31. */
  function DmaFrcdUpPp(up: bv64): (r: bool)
    ensures r <==> up & 0x80000000 != 0
  {
    ((up >> 31) & 1) == 1
  }

  /** execute request: bit 30. */
  function DmaFrcdUpExe(up: bv64): (r: bool)
    ensures r <==> up & 0x40000000 != 0
  {
    ((up >> 30) & 1) == 1
  }

  /** privileged request: bit 29. */
  function DmaFrcdUpPriv(up: bv64): (r: bool)
    ensures r <==> up & 0x20000000 != 0
  {
    ((up >> 29) & 1) == 1
  }

  /** dma_frcd_up_t: bit 62, the request type. */
  function DmaFrcdUpT(up: bv64): (r: bv8)
    ensures r <= 1 && (r == 1 <==> up & 0x4000_0000_0000_0000 != 0)
  {
    ((up >> 62) & 0xFF) as bv8 & 1
  }

  /** dma_frcd_up_at: bits 61:60, address type of the fault record. */
  function DmaFrcdUpAt(up: bv64): (r: bv8)
    ensures r <= 0x3 && (r as bv64) << 60 == up & 0x3000000000000000
  {
    ((up >> 60) & 0xFF) as bv8 & 0x3
  }

  /** dma_frcd_up_fr: bits 39:32, fault reason. */
  function DmaFrcdUpFr(up: bv64): (r: bv8)
    ensures r <= 0xFF && (r as bv64) << 32 == up & 0xFF00000000
  {
    ((up >> 32) & 0xFF) as bv8 & 0xFF
  }

  /** dma_frcd_up_pasid: bits 59:40. */
  function DmaFrcdUpPasid(up: bv64): (r: bv32)
    ensures r <= 0xF_FFFF && (r as bv64) << 40 == up & 0x0FFF_FF00_0000_0000
  {
    ((up >> 40) & 0xFFFF_FFFF) as bv32 & 0xF_FFFF
  }

  /** dma_frcd_up_sid: the faulting source id, bits 15:0. */
  function DmaFrcdUpSid(up: bv64): (r: bv16)
    ensures r as bv64 == up & 0xFFFF
  {
    (up & 0xFFFF) as bv16 & 0xFFFF
  }

  // ----------------------------------------------------------- PCI devfn

  /** DEVFUN: device number in bits 7:3, function number in bits 2:0. */
  function DevFun(dev: bv32, fun: bv32): (r: bv32)
    ensures r < 0x100 && r >> 3 == dev & 0x1F && r & 7 == fun & 7
  {
    ((dev & 0x1F) << 3) | (fun & 0x7)
  }

  /** Every 8-bit devfn is the encoding of its own device and function numbers. */
  lemma DevFunRoundTrip(devfn: bv32)
    requires devfn < 0x100
    ensures DevFun(devfn >> 3, devfn & 7) == devfn
  {
  }
}
