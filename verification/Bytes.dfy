/** Bytes of a block or a page. */
module Bytes {
  /** The bytes from o on replaced. */
  function Patched(b: seq<nat>, o: nat, bytes: seq<nat>): (r: seq<nat>)
    requires o + |bytes| <= |b|
    ensures |r| == |b|
    ensures forall k :: 0 <= k < |r| ==> r[k] == if o <= k < o + |bytes| then bytes[k - o] else b[k]
  {
    b[..o] + bytes + b[o + |bytes|..]
  }
}
