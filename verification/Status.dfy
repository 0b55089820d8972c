// The status codes of udns.h.
module Status {
  const E_TEMPFAIL := -1
  const E_PROTOCOL := -2
  const E_NXDOMAIN := -3
  const E_NODATA := -4
  const E_BADQUERY := -6
}
