/** Results of the memory card functions.  The header with their numbers is not
    part of this model; any distinct non-zero numbers will do for the errors. */
module MmcErrors {
  const MMC_ERR_NONE := 0
  const MMC_ERR_FAILED := 4
  const MMC_ERR_INVALID := 5
  const MMC_ERR_OUT_OF_RANGE := 6
}
