/** What the kernel's allocators hand out is memory that the page-fault handler serves. */
module VirtUses {
  import opened Layout
  import opened VirtZones
  import Heap

  /** Every block of every order of the kernel heap. */
  lemma HeapServed(order: nat, addr: nat)
    requires order < 24 && Heap.Bottom(order) <= addr < Heap.Top(order)
    ensures Served(addr)
  {
  }

  /** Every order of the GC heap, from 32 bytes to 2GB, takes a slot of 512GB. */
  lemma GcHeapServed(order: nat, addr: nat)
    requires order < 27 && 0xFFFF_8100_0000_0000 + SLOT * order <= addr < 0xFFFF_8100_0000_0000 + SLOT * (order + 1)
    ensures Served(addr)
  {
  }
}
