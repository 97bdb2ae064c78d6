/** Small numbers used by several modules. */
module Numbers {
  const WORD64 := 0x1_0000_0000_0000_0000
  const UINT64_MAX := 0xffff_ffff_ffff_ffff

  function Min(a: nat, b: nat): nat { if a < b then a else b }

  /** 1 for what holds, to count with. */
  function One(b: bool): nat { if b then 1 else 0 }
}
