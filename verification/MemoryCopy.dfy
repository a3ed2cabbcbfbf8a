/**
 memmove and memcpy within one object, positions standing for addresses.
 */
module MemoryCopy {
  import opened Words

  // What a simultaneous copy leaves at position `k`.
  function Moved<T>(s: seq<T>, dst: nat, src: nat, len: nat, k: nat): T
    requires dst + len <= |s| && src + len <= |s| && k < |s|
  {
    if dst <= k < dst + len then s[src + (k - dst)] else s[k]
  }

  // Forward copy: right unless the destination starts inside the source.
  method MemCpy<T>(a: array<T>, dst: nat, src: nat, len: nat)
    requires dst + len <= a.Length && src + len <= a.Length
    requires dst <= src || src + len <= dst
    modifies a
    ensures forall k :: 0 <= k < a.Length ==> a[k] == Moved(old(a[..]), dst, src, len, k)
  {
    var n := 0;
    while n < len
      invariant n <= len
      invariant forall k :: 0 <= k < a.Length ==> a[k] == if dst <= k < dst + n then old(a[..])[src + (k - dst)]
        else old(a[k])
    {
      a[dst + n] := a[src + n];
      n := n + 1;
    }
  }

  lemma WrappedDistance(dst: nat, src: nat)
    requires dst < TWO64 && src < TWO64
    ensures (dst - src) % 0x1_0000_0000_0000_0000 == if src <= dst then dst - src else dst - src + TWO64
  {
  }

  // The single unsigned comparison sends every overlap to the copy direction
  // that is safe for it, so the result is the simultaneous copy.
  method MemMove<T>(a: array<T>, dst: nat, src: nat, len: nat)
    requires dst + len <= a.Length && src + len <= a.Length && 2 * a.Length < TWO64
    modifies a
    ensures forall k :: 0 <= k < a.Length ==> a[k] == Moved(old(a[..]), dst, src, len, k)
  {
    WrappedDistance(dst, src);
    if (dst - src) % 0x1_0000_0000_0000_0000 >= len {
      MemCpy(a, dst, src, len);
    } else {
      var n := len;
      while n > 0
        invariant 0 <= n <= len && src <= dst
        invariant forall k :: 0 <= k < a.Length ==>
          a[k] == if dst + n <= k < dst + len then old(a[..])[src + (k - dst)] else old(a[k])
      {
        n := n - 1;
        a[dst + n] := a[src + n];
      }
    }
  }
}
