/** Shared definitions of the remote: node-id conventions, colour-temperature bounds,
    device status codes, device and remote types with their family predicates, and
    the bit macros. */
module Common {
  import opened Arduino

  //--------------------------------------------------------------------------
  // Node-id conventions and colour temperature bounds
  //--------------------------------------------------------------------------

  const NODEID_GATEWAY: byte := 0
  const NODEID_MAINDEVICE: byte := 1
  const NODEID_MIN_DEVICE: byte := 8
  const NODEID_MAX_DEVICE: byte := 63
  const NODEID_MIN_REMOTE: byte := 64
  const NODEID_MAX_REMOTE: byte := 127
  const NODEID_DUMMY: byte := 255

  const CT_MIN_VALUE: uint16 := 2700
  const CT_MAX_VALUE: uint16 := 6500

  /** A node id outside the range reserved for lamps, other than the main device. */
  predicate IsNotDeviceNodeId(n: int)
  {
    (n < NODEID_MIN_DEVICE as int || n > NODEID_MAX_DEVICE as int) && n != NODEID_MAINDEVICE as int
  }

  /** A node id outside the range reserved for remotes. */
  predicate IsNotRemoteNodeId(n: int)
  {
    n < NODEID_MIN_REMOTE as int || n > NODEID_MAX_REMOTE as int
  }

  lemma NodeIdRanges(n: byte)
    ensures !IsNotRemoteNodeId(n) <==> 64 <= n <= 127
    ensures !IsNotDeviceNodeId(n) <==> (8 <= n <= 63 || n == 1)
    ensures !(!IsNotRemoteNodeId(n) && !IsNotDeviceNodeId(n))
    ensures (n == 0 || n == 255) ==> IsNotRemoteNodeId(n) && IsNotDeviceNodeId(n)
  {
  }

  //--------------------------------------------------------------------------
  // Device status codes
  //--------------------------------------------------------------------------

  const STATUS_OFF: byte := 0
  const STATUS_INIT: byte := 1
  const STATUS_BMW: byte := 2
  const STATUS_DIS: byte := 3
  const STATUS_NWS: byte := 4
  const STATUS_SLP: byte := 5
  const STATUS_RST: byte := 6
  const STATUS_ERR: byte := 7

  const StatusCodes: seq<byte> :=
    [STATUS_OFF, STATUS_INIT, STATUS_BMW, STATUS_DIS, STATUS_NWS, STATUS_SLP, STATUS_RST, STATUS_ERR]

  /** The status codes are 0..7 in order, so `STATUS_ERR` is the largest. */
  lemma StatusCodesDense()
    ensures forall i :: 0 <= i < |StatusCodes| ==> StatusCodes[i] == i
    ensures forall i :: 0 <= i < |StatusCodes| ==> StatusCodes[i] <= STATUS_ERR
    ensures |StatusCodes| == STATUS_ERR as int + 1
  {
  }

  //--------------------------------------------------------------------------
  // Node type marks and ring ids
  //--------------------------------------------------------------------------

  const NODE_TYP_REMOTE: byte := 'r' as int
  const RING_ID_ALL: byte := 0

  //--------------------------------------------------------------------------
  // Device and remote types
  //--------------------------------------------------------------------------

  const MAX_RING_NUM: nat := 3

  const DEVTYPE_UNKNOWN: byte := 0
  const DEVTYPE_C_RING3: byte := 1
  const DEVTYPE_C_RING2: byte := 2
  const DEVTYPE_C_RING1: byte := 3
  const DEVTYPE_W_RING3: byte := 4
  const DEVTYPE_W_RING2: byte := 5
  const DEVTYPE_W_RING1: byte := 6
  const DEVTYPE_M_RING3: byte := 8
  const DEVTYPE_M_RING2: byte := 9
  const DEVTYPE_M_RING1: byte := 10
  const DEVTYPE_DUMMY: byte := 255

  const REMOTE_TYPE_UNKNOWN: byte := 0
  const REMOTE_TYPE_RF_SIMPLY: byte := 1
  const REMOTE_TYPE_RF_STANDARD: byte := 2
  const REMOTE_TYPE_RF_ENHANCED: byte := 3
  const REMOTE_TYPE_DUMMY: byte := 4

  /** White-ring lamps. */
  predicate IsSunny(t: int)
  {
    t >= DEVTYPE_W_RING3 as int && t <= DEVTYPE_W_RING1 as int
  }

  /** Colour-ring lamps. */
  predicate IsRainbow(t: int)
  {
    t >= DEVTYPE_C_RING3 as int && t <= DEVTYPE_C_RING1 as int
  }

  /** Colour-and-motion-ring lamps. */
  predicate IsMirage(t: int)
  {
    t >= DEVTYPE_M_RING3 as int && t <= DEVTYPE_M_RING1 as int
  }

  predicate IsValidRemote(t: int)
  {
    t >= REMOTE_TYPE_RF_SIMPLY as int && t <= REMOTE_TYPE_RF_ENHANCED as int
  }

  /** The families are the intervals of the enumeration, pairwise disjoint, and
      type 7 (the gap before the Mirage types) belongs to none. */
  lemma DeviceFamilies(t: int)
    ensures IsRainbow(t) <==> 1 <= t <= 3
    ensures IsSunny(t) <==> 4 <= t <= 6
    ensures IsMirage(t) <==> 8 <= t <= 10
    ensures !(IsRainbow(t) && IsSunny(t)) && !(IsRainbow(t) && IsMirage(t)) && !(IsSunny(t) && IsMirage(t))
    ensures t == 7 ==> !IsRainbow(t) && !IsSunny(t) && !IsMirage(t)
    ensures IsValidRemote(t) <==> 1 <= t <= 3
  {
  }

  //--------------------------------------------------------------------------
  // Bit macros, on a 32-bit value and a position below 32
  //--------------------------------------------------------------------------

  function BitMask(pos: bv32): (r: bv32)
    requires pos < 32
    ensures r != 0
  {
    1 << pos
  }

  function BitTest(v: bv32, pos: bv32): (r: bv32)
    requires pos < 32
    ensures r == 0 || r == 1
  {
    (v >> pos) & 1
  }

  /** Setting a bit makes it read 1 (the other bits: `BitSetOthers`). */
  function BitSet(v: bv32, pos: bv32): (r: bv32)
    requires pos < 32
    ensures BitTest(r, pos) == 1
  {
    v | BitMask(pos)
  }

  /** Clearing a bit makes it read 0 (the other bits: `BitUnsetOthers`). */
  function BitUnset(v: bv32, pos: bv32): (r: bv32)
    requires pos < 32
    ensures BitTest(r, pos) == 0
  {
    v & !BitMask(pos)
  }

  lemma BitSetOthers(v: bv32, pos: bv32, q: bv32)
    requires pos < 32 && q < 32 && q != pos
    ensures BitTest(BitSet(v, pos), q) == BitTest(v, q)
  {
  }

  lemma BitUnsetOthers(v: bv32, pos: bv32, q: bv32)
    requires pos < 32 && q < 32 && q != pos
    ensures BitTest(BitUnset(v, pos), q) == BitTest(v, q)
  {
  }
}
