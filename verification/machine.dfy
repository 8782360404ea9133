/** What all parts of the kernel agree on: words of 32 bits, pages of 4 KiB, and where
    the kernel heap is. */
module Machine {
  const WORD_RANGE := 0x1_0000_0000
  const PAGE_SIZE := 4096

  const KHEAP_START := 0xD000_0000
  const KHEAP_END := 0xD010_0000    // KHEAP_START + KHEAP_MAX_SIZE

  datatype Option<T> = None | Some(value: T)

  type Word32 = x: int | 0 <= x < 0x1_0000_0000

  // A word read back as a signed number.
  function Signed(x: int): int { if x < 0x8000_0000 then x else x - WORD_RANGE }
}
