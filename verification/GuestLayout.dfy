/** Where the guest keeps its one virtqueue: all sides of the device agree on these. */
module GuestLayout {
  const MEM_SIZE: nat := 0x2_0000
  const SIZE: nat := 8
  const DESC: nat := 0x4000
  const AVAIL: nat := 0x5000
  const USED: nat := 0x6000
}
