/** rP4-compiler/rp4c/ipsa_configuration.h. */
module Configuration {
  const MAX_LEVEL: nat := 4
  const CLUSTER_COUNT: nat := 4
  const CLUSTER_PROC_COUNT: nat := 4
  const CLUSTER_SRAM_COUNT: nat := 256
  const CLUSTER_TCAM_COUNT: nat := 128
  const PROC_COUNT: nat := 16

  /** The processor at place `j` of cluster `i`. */
  function Slot(i: int, j: int): (k: int)
    ensures k == 4 * i + j
  {
    i * CLUSTER_PROC_COUNT + j
  }
}
