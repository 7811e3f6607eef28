/** The memory layout constants of inc/mmu.h and inc/memlayout.h that several modules share; addresses in pages. */
module Layout {
  const ENTRIES: nat := 1024                 // entries of a page directory or page table
  const TABLES: nat := 955                   // PDX(USER_TOP)
  const USER_END: nat := TABLES * ENTRIES    // USER_TOP / PAGE_SIZE
}
