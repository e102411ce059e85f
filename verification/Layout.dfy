/** The kernel's part of the address space, as kernel/mem/memory.h lays it out. */
module Layout {
  const DIRECT_MAP: nat := 0xFFFF_8000_0000_0000
  const GC_HEAP: nat := 0xFFFF_8100_0000_0000
  const GC_HEAP_END: nat := 0xFFFF_8E80_0000_0000
  const STACKS: nat := 0xFFFF_8F00_0000_0000
  const STACKS_END: nat := 0xFFFF_8F80_0000_0000
  const SMALL_STACKS: nat := 0xFFFF_8F80_0000_0000
  const SMALL_STACKS_END: nat := 0xFFFF_9000_0000_0000
  const THREADS: nat := 0xFFFF_B000_0000_0000
  const THREADS_END: nat := 0xFFFF_B080_0000_0000
  const HEAP: nat := 0xFFFF_C000_0000_0000
  const HEAP_END: nat := 0xFFFF_D000_0000_0000

  const SLOT: nat := 0x80_0000_0000     // what a top-level slot spans, 512GB
  const STACK_SIZE: nat := 0x80_0000    // 8MB a thread
  const STACK_GUARD: nat := 0x20_0000   // of which the lowest 2MB stay unmapped
  const SMALL_SIZE: nat := 0x8000
  const SMALL_GUARD: nat := 0x1000
}
