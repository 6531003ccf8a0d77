/** Byte-order conversions: those of 64 bits are written by hand, those of 32 bits are the system's. */
module Endian {
  import opened Bytes

  datatype ByteOrder = LittleEndian | BigEndian

  function Reverse(s: seq<uint8>): (r: seq<uint8>)
    ensures |r| == |s|
    ensures forall i :: 0 <= i < |s| ==> r[i] == s[|s| - 1 - i]
  {
    seq(|s|, i requires 0 <= i < |s| => s[|s| - 1 - i])
  }

  /** How a host of the given byte order lays out a 64-bit integer in memory. */
  function HostBytes(order: ByteOrder, x: uint64): (s: seq<uint8>)
    ensures |s| == 8
  {
    if order.BigEndian? then BE64(x) else Reverse(BE64(x))
  }

  /** The integer a host reads from eight bytes of memory. */
  function FromHostBytes(order: ByteOrder, s: seq<uint8>): uint64
    requires |s| == 8
  {
    UnBE64(if order.BigEndian? then s else Reverse(s))
  }

  /** ntoh64: stores the bytes of the argument, by shift and mask, into the memory of the result. */
  function Ntoh64(order: ByteOrder, net: uint64): uint64 {
    FromHostBytes(order,
                  [net / 0x100_0000_0000_0000 % 0x100,
                   net / 0x1_0000_0000_0000 % 0x100,
                   net / 0x100_0000_0000 % 0x100,
                   net / 0x1_0000_0000 % 0x100,
                   net / 0x100_0000 % 0x100,
                   net / 0x1_0000 % 0x100,
                   net / 0x100 % 0x100,
                   net % 0x100])
  }

  /** hton64: reads the argument's memory byte by byte and joins the bytes by shifts; the shifted
      bytes do not overlap, so their bitwise or is their sum. */
  function Hton64(order: ByteOrder, host: uint64): uint64 {
    var p := HostBytes(order, host);
    p[0] as int * 0x100_0000_0000_0000 + p[1] as int * 0x1_0000_0000_0000 + p[2] as int * 0x100_0000_0000 + p[3] as int * 0x1_0000_0000
    + p[4] as int * 0x100_0000 + p[5] as int * 0x1_0000 + p[6] as int * 0x100 + p[7]
  }

  lemma ShiftedBytes(x: uint64)
    ensures BE64(x) == [x / 0x100_0000_0000_0000 % 0x100, x / 0x1_0000_0000_0000 % 0x100,
                        x / 0x100_0000_0000 % 0x100, x / 0x1_0000_0000 % 0x100, x / 0x100_0000 % 0x100,
                        x / 0x1_0000 % 0x100, x / 0x100 % 0x100, x % 0x100]
  {
    var x4 := x / 0x1_0000_0000;
    ShiftSplit(x);
    FourBytes(x4, 0, []);
    FourBytes(x, 4, BE(x4, 4));
  }

  lemma ShiftSplit(x: uint64)
    ensures x / 0x1_0000_0000 / 0x1_0000_0000 == 0
    ensures x / 0x1_0000_0000 / 0x100_0000 == x / 0x100_0000_0000_0000
    ensures x / 0x1_0000_0000 / 0x1_0000 == x / 0x1_0000_0000_0000
    ensures x / 0x1_0000_0000 / 0x100 == x / 0x100_0000_0000
  {
  }

  /** Four steps of the big-endian split, on top of the `n` bytes already split off. */
  lemma FourBytes(x: nat, n: nat, high: seq<uint8>)
    requires n == |high| && BE(x / 0x1_0000_0000, n) == high
    ensures BE(x, n + 4) == high + [x / 0x100_0000 % 0x100, x / 0x1_0000 % 0x100, x / 0x100 % 0x100, x % 0x100]
  {
    var a, b, c := x / 0x100, x / 0x1_0000, x / 0x100_0000;
    assert a / 0x100 == b && b / 0x100 == c && c / 0x100 == x / 0x1_0000_0000;
    assert BE(c, n + 1) == high + [c % 0x100];
    assert BE(b, n + 2) == BE(c, n + 1) + [b % 0x100];
    assert BE(a, n + 3) == BE(b, n + 2) + [a % 0x100];
    assert BE(x, n + 4) == BE(a, n + 3) + [x % 0x100];
  }

  lemma JoinedBytes(p: seq<uint8>)
    requires |p| == 8
    ensures UnBE64(p) == p[0] as int * 0x100_0000_0000_0000 + p[1] as int * 0x1_0000_0000_0000 + p[2] as int * 0x100_0000_0000
                         + p[3] as int * 0x1_0000_0000 + p[4] as int * 0x100_0000 + p[5] as int * 0x1_0000 + p[6] as int * 0x100 + p[7]
  {
    UnBE4(p[..4]);
    assert p[..8] == p;
    assert UnBE(p[..5]) == UnBE(p[..4]) * 256 + p[4] by { assert p[..5][..4] == p[..4]; }
    assert UnBE(p[..6]) == UnBE(p[..5]) * 256 + p[5] by { assert p[..6][..5] == p[..5]; }
    assert UnBE(p[..7]) == UnBE(p[..6]) * 256 + p[6] by { assert p[..7][..6] == p[..6]; }
    assert UnBE(p[..8]) == UnBE(p[..7]) * 256 + p[7] by { assert p[..8][..7] == p[..7]; }
  }

  lemma UnBE4(p: seq<uint8>)
    requires |p| == 4
    ensures UnBE(p) == p[0] as int * 0x100_0000 + p[1] as int * 0x1_0000 + p[2] as int * 0x100 + p[3]
  {
    assert p[..4] == p;
    assert UnBE(p[..1]) == p[0] by { assert p[..1][..0] == []; }
    assert UnBE(p[..2]) == UnBE(p[..1]) * 256 + p[1] by { assert p[..2][..1] == p[..1]; }
    assert UnBE(p[..3]) == UnBE(p[..2]) * 256 + p[2] by { assert p[..3][..2] == p[..2]; }
    assert UnBE(p[..4]) == UnBE(p[..3]) * 256 + p[3] by { assert p[..4][..3] == p[..3]; }
  }

  lemma HostRoundTrip(order: ByteOrder, x: uint64, s: seq<uint8>)
    requires |s| == 8
    ensures FromHostBytes(order, HostBytes(order, x)) == x
    ensures HostBytes(order, FromHostBytes(order, s)) == s
  {
    UnBE64OfBE64(x);
    assert Reverse(Reverse(BE64(x))) == BE64(x);
    assert Reverse(Reverse(s)) == s;
  }

  /** ns_push_64 copies the memory of the converted value: its bytes go out most significant first. */
  lemma PushedMostSignificantFirst(order: ByteOrder, x: uint64)
    ensures HostBytes(order, Hton64(order, x)) == BE64(x)
  {
    JoinedBytes(HostBytes(order, x));
    assert BE64(Hton64(order, x)) == HostBytes(order, x);
    assert Reverse(Reverse(BE64(x))) == BE64(x);
  }

  /** ns_pop_64 converts what the host reads from those eight bytes. */
  lemma PoppedMostSignificantFirst(order: ByteOrder, s: seq<uint8>)
    requires |s| == 8
    ensures Ntoh64(order, FromHostBytes(order, s)) == UnBE64(s)
  {
    var net := FromHostBytes(order, s);
    ShiftedBytes(net);
    assert Reverse(Reverse(s)) == s;
    UnBE64OfBE64(UnBE64(s));
  }

  /** On either kind of host the two conversions undo each other. */
  lemma ConversionsInverse(order: ByteOrder, x: uint64)
    ensures Ntoh64(order, Hton64(order, x)) == x
    ensures Hton64(order, Ntoh64(order, x)) == x
  {
    UnBE64OfBE64(x);
    HostRoundTrip(order, Hton64(order, x), BE64(x));
    assert Ntoh64(order, Hton64(order, x)) == x by {
      PushedMostSignificantFirst(order, x);
      PoppedMostSignificantFirst(order, BE64(x));
    }
    assert Hton64(order, Ntoh64(order, x)) == x by {
      ShiftedBytes(x);
      JoinedBytes(BE64(x));
    }
  }

  // ----- 32 bits -----

  function HostBytes32(order: ByteOrder, x: uint32): (s: seq<uint8>)
    ensures |s| == 4
  {
    if order.BigEndian? then BE32(x) else Reverse(BE32(x))
  }

  function FromHostBytes32(order: ByteOrder, s: seq<uint8>): uint32
    requires |s| == 4
  {
    UnBE32(if order.BigEndian? then s else Reverse(s))
  }

  /** htonl, which is also ntohl: swaps the bytes on a little-endian host. */
  function Swap32(order: ByteOrder, x: uint32): uint32 {
    if order.BigEndian? then x else UnBE32(Reverse(BE32(x)))
  }

  lemma Pushed32MostSignificantFirst(order: ByteOrder, x: uint32)
    ensures HostBytes32(order, Swap32(order, x)) == BE32(x)
  {
    assert Reverse(Reverse(BE32(x))) == BE32(x);
  }

  lemma Popped32MostSignificantFirst(order: ByteOrder, s: seq<uint8>)
    requires |s| == 4
    ensures Swap32(order, FromHostBytes32(order, s)) == UnBE32(s)
  {
    assert Reverse(Reverse(s)) == s;
  }
}
