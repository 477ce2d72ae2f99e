/** Packet buffers, identified by their address. */
module Mbuf {
  type MBuf = nat
}
