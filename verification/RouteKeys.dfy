/**
 The packed forms of the route service: a service is a module and a command number in one 64-bit key,
 a host an address and a port in one 64-bit value.
 */
module RouteKeys {
  import opened Bytes

  const TWO32 := 0x1_0000_0000
  const TWO64 := 0x1_0000_0000_0000_0000

  type uint32 = x: int | 0 <= x < 0x1_0000_0000

  function ShiftedUp(x: uint64): uint64 {
    AsUint64(x * TWO32)
  }

  /** `((uint64_t)modid << 32) + cmdid`: both numbers are sign-extended, and the sum wraps. */
  function Key(modid: int32, cmdid: int32): uint64 {
    AsUint64(ShiftedUp(AsUint64(modid)) + AsUint64(cmdid))
  }

  /** How the publisher takes a key apart: `key >> 32` and `(uint32_t)key`, both stored in an `int`. */
  function KeyMod(key: uint64): int32 {
    AsInt32(key / TWO32)
  }

  function KeyCmd(key: uint64): int32 {
    AsInt32(key % TWO32)
  }

  /** `((uint64_t)ip << 32) + port` with an unsigned address. */
  function HostValue(ip: uint32, port: int32): uint64 {
    AsUint64(ShiftedUp(ip) + AsUint64(port))
  }

  function HostIp(value: uint64): uint32 {
    value / TWO32
  }

  function HostPort(value: uint64): int32 {
    AsInt32(value % TWO32)
  }

  lemma Remainder(m: nat, q: int, r: int)
    requires m == TWO32 || m == TWO64
    requires 0 <= r < m
    ensures (m * q + r) % m == r && (m * q + r) / m == q
  {
  }

  /** Shifting drops all but the lower half. */
  lemma Shifted(x: int)
    ensures ShiftedUp(AsUint64(x)) == (x % TWO32) * TWO32
  {
  }

  /** A negative lower part borrows one from the upper part. */
  lemma Borrowed(high: nat, low: int32)
    requires high < TWO32
    ensures AsUint64(high * TWO32 + AsUint64(low)) ==
      if low >= 0 then high * TWO32 + low
      else (if high > 0 then high - 1 else TWO32 - 1) * TWO32 + (low + TWO32)
  {
  }

  lemma OneLess(high: int)
    ensures (high - 1) % TWO32 == if high % TWO32 > 0 then high % TWO32 - 1 else TWO32 - 1
  {
  }

  /** Upper and lower half of a packed number. */
  lemma Halves(high: int, low: int32)
    ensures var x := AsUint64(ShiftedUp(AsUint64(high)) + AsUint64(low));
      && x / TWO32 == (if low >= 0 then high else high - 1) % TWO32
      && x % TWO32 == low % TWO32
  {
    Shifted(high);
    Borrowed(high % TWO32, low);
    OneLess(high);
    var l := if low >= 0 then low else low + TWO32;
    Remainder(TWO32, (if low >= 0 then high else high - 1) % TWO32, l);
    Remainder(TWO32, if low >= 0 then 0 else -1, l);
  }

  lemma Split(x: uint64)
    ensures 0 <= x / TWO32 < TWO32 && 0 <= x % TWO32 < TWO32
    ensures x == (x / TWO32) * TWO32 + x % TWO32
  {
  }

  lemma Reduced(x: int)
    ensures AsInt32(x % TWO32) == AsInt32(x) && x % TWO32 % TWO32 == x % TWO32
  {
  }

  lemma Neighbour(x: int32)
    ensures AsInt32(x) == x && AsInt32(x - 1) != x
  {
  }

  /** Unpacking gives the command number back always, the module number exactly for commands that are
      not negative: below that it is one too small, with wrap-around. */
  lemma UnpackKey(modid: int32, cmdid: int32)
    ensures KeyCmd(Key(modid, cmdid)) == cmdid
    ensures KeyMod(Key(modid, cmdid)) == AsInt32(if cmdid >= 0 then modid else modid - 1)
    ensures KeyMod(Key(modid, cmdid)) == modid <==> cmdid >= 0
  {
    Halves(modid, cmdid);
    Reduced(if cmdid >= 0 then modid else modid - 1);
    Reduced(cmdid);
    Neighbour(modid);
    Neighbour(cmdid);
    hide AsInt32, ShiftedUp, AsUint64;
  }

  /** Different services have different keys. */
  lemma KeyInjective(modid: int32, cmdid: int32, modid': int32, cmdid': int32)
    requires Key(modid, cmdid) == Key(modid', cmdid')
    ensures modid == modid' && cmdid == cmdid'
  {
    UnpackKey(modid, cmdid);
    UnpackKey(modid', cmdid');
    hide Key;
  }

  /** Read as an `int`, a key is its command number: the module number is lost. */
  lemma KeyAsInt(modid: int32, cmdid: int32)
    ensures AsInt32(Key(modid, cmdid)) == cmdid
  {
    UnpackKey(modid, cmdid);
    Reduced(Key(modid, cmdid));
    hide Key, AsInt32;
  }

  /** Repacking what was unpacked restores every key that no negative command number produced. */
  lemma RepackKey(key: uint64)
    ensures Key(KeyMod(key), KeyCmd(key)) == key <==> KeyCmd(key) >= 0
  {
    var packed := Key(KeyMod(key), KeyCmd(key));
    Halves(KeyMod(key), KeyCmd(key));
    Split(key);
    Split(packed);
    OneLess(KeyMod(key));
    Remainder(TWO32, 0, key / TWO32);
    Remainder(TWO32, -1, key / TWO32);
    hide Key;
  }

  /** Address and port come back exactly for ports that are not negative. */
  lemma UnpackHost(ip: uint32, port: int32)
    ensures HostPort(HostValue(ip, port)) == port
    ensures HostIp(HostValue(ip, port)) == ip <==> port >= 0
  {
    NeighbourIp(ip);
    Halves(ip, port);
    Reduced(port);
    Neighbour(port);
    hide ShiftedUp, AsUint64, AsInt32;
  }

  lemma NeighbourIp(ip: uint32)
    ensures AsUint64(ip) == ip && ip % TWO32 == ip && (ip - 1) % TWO32 != ip
  {
  }
}
