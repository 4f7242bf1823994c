/** The types of DNS records that the cache keeps apart. */
module DnsTypes {
  const T_A: nat := 1
  const T_CNAME: nat := 5
  const T_AAAA: nat := 28
  const T_SRV: nat := 33
  const T_NAPTR: nat := 35
}
