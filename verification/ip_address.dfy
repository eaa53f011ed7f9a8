/**
 The part of Python's `ipaddress` the gate relies on. An address is a
 version and its bits (most significant first); a network is a version, the
 bits of its base address and a prefix length. `address in network` is
 false across versions and otherwise compares the masked address with the
 base.
 */
module IpAddress {

  datatype Version = V4 | V6

  function Width(v: Version): nat {
    match v
    case V4 => 32
    case V6 => 128
  }

  datatype IP = IP(version: Version, bits: seq<bool>)

  datatype Network = Network(version: Version, base: seq<bool>, prefixLen: nat)

  predicate ValidIp(ip: IP) {
    |ip.bits| == Width(ip.version)
  }

  /** What `ipaddress` constructs for a network in strict mode: the right
      width, a prefix no longer than the width, and no host bits set. */
  predicate ValidNetwork(net: Network) {
    && |net.base| == Width(net.version)
    && net.prefixLen <= Width(net.version)
    && forall i | net.prefixLen <= i < |net.base| :: !net.base[i]
  }

  function Zeros(n: nat): (r: seq<bool>)
    ensures |r| == n && forall i | 0 <= i < n :: !r[i]
  {
    seq(n, _ => false)
  }

  /** `bits & netmask` for a netmask of `p` leading ones: the first `p` bits
      kept, the rest cleared. */
  function Mask(bits: seq<bool>, p: nat): (r: seq<bool>)
    requires p <= |bits|
    ensures |r| == |bits|
    ensures r[..p] == bits[..p] && forall i | p <= i < |r| :: !r[i]
  {
    bits[..p] + Zeros(|bits| - p)
  }

  /** Python's `_BaseNetwork.__contains__` for an address operand: false
      when the versions differ, otherwise `ip & netmask == network_address`. */
  predicate InNetwork(ip: IP, net: Network) {
    && ip.version == net.version
    && ValidNetwork(net)
    && ValidIp(ip)
    && Mask(ip.bits, net.prefixLen) == net.base
  }

  /** Containment is agreement on the first `prefixLen` bits between an
      address and a network of its own version. */
  lemma InNetworkIffPrefixAgrees(ip: IP, net: Network)
    ensures InNetwork(ip, net)
            <==> (&& ip.version == net.version
                  && ValidNetwork(net)
                  && ValidIp(ip)
                  && ip.bits[..net.prefixLen] == net.base[..net.prefixLen])
  {
    if ip.version == net.version && ValidNetwork(net) && ValidIp(ip) {
      var p := net.prefixLen;
      var m := Mask(ip.bits, p);
      if ip.bits[..p] == net.base[..p] {
        assert m == net.base by {
          forall i | 0 <= i < |m| ensures m[i] == net.base[i] {
            if i < p {
              assert m[i] == m[..p][i] && net.base[i] == net.base[..p][i];
            }
          }
        }
      }
      if m == net.base {
        assert m[..p] == net.base[..p];
      }
    }
  }
}
