// The server-ID based Paxos ID generator (paxos/id_generator.go).
module PaxosIds {
  import opened Bytes

  const Two56 := 0x1_0000_0000_0000_00
  const Two64 := 0x1_0000_0000_0000_0000

  /** Go's integer division, which truncates toward zero. */
  function GoDiv(a: int, b: int): int
    requires b > 0
  {
    if a >= 0 then a / b else -((-a) / b)
  }

  /**
   * `Next`: the clock's Unix nanoseconds become milliseconds, which are
   * converted to uint64, shifted left 8 bits (dropping what overflows) and
   * or-ed with the server ID. It never fails.
   */
  function Next(unixNano: int, serverId: byte): (id: u64)
    requires -0x8000_0000_0000_0000 <= unixNano < 0x8000_0000_0000_0000
    ensures id % 256 == serverId
    ensures id / 256 == GoDiv(unixNano, 1_000_000) % Two56
  {
    var millisecond := GoDiv(unixNano, 1_000_000);
    var shifted := ((millisecond % Two64) * 256) % Two64;
    ShiftLow(millisecond % Two64);
    Pack(millisecond % Two64 % Two56, serverId);
    shifted + serverId
  }

  lemma ShiftLow(m: nat)
    requires m < Two64
    ensures (m * 256) % Two64 == (m % Two56) * 256
  {
    var q := m / Two56;
    assert m == q * Two56 + m % Two56;
    assert m * 256 == q * Two64 + (m % Two56) * 256;
  }

  /** A value below 2^56 shifted by 8 bits and or-ed with a byte keeps both parts. */
  lemma Pack(a: nat, b: byte)
    requires a < Two56
    ensures a * 256 + b < Two64
    ensures (a * 256 + b) % 256 == b && (a * 256 + b) / 256 == a
  {
  }

  /** Two servers with different IDs never produce the same ID, in the same millisecond or any other. */
  lemma DistinctServersDistinctIds(t1: int, t2: int, s1: byte, s2: byte)
    requires -0x8000_0000_0000_0000 <= t1 < 0x8000_0000_0000_0000
    requires -0x8000_0000_0000_0000 <= t2 < 0x8000_0000_0000_0000
    requires s1 != s2
    ensures Next(t1, s1) != Next(t2, s2)
  {
  }

  /** Within one server, IDs from different milliseconds (below 2^56 ms) differ and keep their order. */
  lemma LaterMillisecondLargerId(t1: int, t2: int, s: byte)
    requires 0 <= t1 < 0x8000_0000_0000_0000 && 0 <= t2 < 0x8000_0000_0000_0000
    requires GoDiv(t1, 1_000_000) < GoDiv(t2, 1_000_000)
    ensures Next(t1, s) < Next(t2, s)
  {
    var a, b := Next(t1, s), Next(t2, s);
    assert a / 256 < b / 256;
  }
}
