/**
 Config-space access of any length byte by byte (version 1) and of lengths 1, 2, 4 and 8 by words
 (version 2), against a device that holds a byte array and serves it with little-endian accesses.
 */
module ConfigSpace {
  import opened Words

  // ---------- Little-endian values ----------

  function LeValue(bs: seq<byte>): (v: nat) {
    if bs == [] then 0 else bs[0] + 0x100 * LeValue(bs[1..])
  }

  function LeBytes(v: nat, n: nat): (bs: seq<byte>)
    ensures |bs| == n
    decreases n
  {
    if n == 0 then [] else [v % 0x100] + LeBytes(v / 0x100, n - 1)
  }

  function Limit(n: nat): (r: nat)
    ensures r > 0
  {
    if n == 0 then 1 else 0x100 * Limit(n - 1)
  }

  /** Bytes survive the trip through a word as wide as they are. */
  lemma {:induction false} BytesRoundTrip(bs: seq<byte>)
    ensures LeBytes(LeValue(bs), |bs|) == bs && LeValue(bs) < Limit(|bs|)
    decreases bs
  {
    if bs != [] {
      BytesRoundTrip(bs[1..]);
      assert LeValue(bs) % 0x100 == bs[0] && LeValue(bs) / 0x100 == LeValue(bs[1..]);
    }
  }

  lemma LeCons(b: byte, bs: seq<byte>)
    ensures LeValue([b] + bs) == b + 0x100 * LeValue(bs)
  {
    assert ([b] + bs)[1..] == bs;
  }

  /** The lowest byte comes first. */
  lemma LittleEndian(a: byte, b: byte, c: byte, d: byte)
    ensures LeValue([a]) == a && LeValue([a, b]) == a + 0x100 * b
    ensures LeValue([a, b, c, d]) == a + 0x100 * b + 0x1_0000 * c + 0x100_0000 * d
  {
    LeCons(a, []);
    LeCons(b, []);
    LeCons(d, []);
    LeCons(a, [b]);
    LeCons(c, [d]);
    LeCons(b, [c] + [d]);
    LeCons(a, [b] + ([c] + [d]));
    assert [a] + [] == [a] && [b] + [] == [b] && [d] + [] == [d] && [a] + [b] == [a, b];
    assert [a] + ([b] + ([c] + [d])) == [a, b, c, d];
  }

  /** The width of the word a register value is assigned to. */
  function Truncated(v: nat, n: nat): (r: nat)
    ensures v < Limit(n) ==> r == v
  {
    if v < Limit(n) then v else v % Limit(n)
  }

  // ---------- The device ----------

  function Splice(cfg: seq<byte>, off: nat, bs: seq<byte>): (r: seq<byte>)
    requires off + |bs| <= |cfg|
    ensures |r| == |cfg|
  {
    cfg[..off] + bs + cfg[off + |bs|..]
  }

  function ReadWord(cfg: seq<byte>, off: nat, n: nat): nat
    requires off + n <= |cfg|
  {
    LeValue(cfg[off..off + n])
  }

  function WriteWord(cfg: seq<byte>, off: nat, v: nat, n: nat): (r: seq<byte>)
    requires off + n <= |cfg|
    ensures |r| == |cfg|
  {
    Splice(cfg, off, LeBytes(v, n))
  }

  /** The byte-wise form: one one-byte access after the other. */
  function WriteEach(cfg: seq<byte>, off: nat, bs: seq<byte>): (r: seq<byte>)
    requires off + |bs| <= |cfg|
    ensures |r| == |cfg|
    decreases bs
  {
    if bs == [] then cfg else WriteEach(WriteWord(cfg, off, bs[0], 1), off + 1, bs[1..])
  }

  function ReadEach(cfg: seq<byte>, off: nat, n: nat): seq<byte>
    requires off + n <= |cfg|
    decreases n
  {
    if n == 0 then [] else [ReadWord(cfg, off, 1) % 0x100] + ReadEach(cfg, off + 1, n - 1)
  }

  lemma ByteAccess(cfg: seq<byte>, off: nat, b: byte)
    requires off < |cfg|
    ensures ReadWord(cfg, off, 1) == cfg[off] && LeBytes(b, 1) == [b]
  {
    assert cfg[off..off + 1] == [cfg[off]];
    assert LeValue([cfg[off]][1..]) == 0;
    assert LeBytes(b / 0x100, 0) == [];
  }

  lemma SpliceStep(cfg: seq<byte>, off: nat, bs: seq<byte>)
    requires off + |bs| <= |cfg| && bs != []
    ensures Splice(WriteWord(cfg, off, bs[0], 1), off + 1, bs[1..]) == Splice(cfg, off, bs)
  {
    ByteAccess(cfg, off, bs[0]);
    assert bs == [bs[0]] + bs[1..];
  }

  /** Writing single bytes and writing one word have the same effect, whatever the length. */
  lemma {:induction false} WritePathsAgree(cfg: seq<byte>, off: nat, bs: seq<byte>)
    requires off + |bs| <= |cfg|
    ensures WriteEach(cfg, off, bs) == WriteWord(cfg, off, LeValue(bs), |bs|) == Splice(cfg, off, bs)
    decreases bs
  {
    BytesRoundTrip(bs);
    if bs != [] {
      SpliceStep(cfg, off, bs);
      WritePathsAgree(WriteWord(cfg, off, bs[0], 1), off + 1, bs[1..]);
    } else {
      assert Splice(cfg, off, bs) == cfg;
    }
  }

  /** Reading single bytes and reading one word yield the same bytes, whatever the length. */
  lemma {:induction false} ReadPathsAgree(cfg: seq<byte>, off: nat, n: nat)
    requires off + n <= |cfg|
    ensures ReadEach(cfg, off, n) == cfg[off..off + n]
    ensures ReadWord(cfg, off, n) < Limit(n) && LeBytes(ReadWord(cfg, off, n), n) == cfg[off..off + n]
    decreases n
  {
    BytesRoundTrip(cfg[off..off + n]);
    if n > 0 {
      ByteAccess(cfg, off, 0);
      ReadPathsAgree(cfg, off + 1, n - 1);
      assert cfg[off..off + n] == [cfg[off]] + cfg[off + 1..off + n];
    }
  }

  /** Two words next to each other are one of twice the width. */
  lemma SpliceTwice(cfg: seq<byte>, off: nat, bs: seq<byte>, k: nat)
    requires off + |bs| <= |cfg| && k <= |bs|
    ensures Splice(Splice(cfg, off, bs[..k]), off + k, bs[k..]) == Splice(cfg, off, bs)
  {
  }

  class ConfigDevice {
    var cfg: seq<byte>

    constructor (cfg: seq<byte>)
      ensures this.cfg == cfg
    {
      this.cfg := cfg;
    }

    method ReadAdapter(off: nat, n: nat) returns (v: nat)
      requires off + n <= |cfg|
      ensures v == ReadWord(cfg, off, n)
    {
      v := ReadWord(cfg, off, n);
    }

    method WriteAdapter(v: nat, off: nat, n: nat)
      requires off + n <= |cfg|
      modifies this
      ensures cfg == WriteWord(old(cfg), off, v, n)
    {
      cfg := WriteWord(cfg, off, v, n);
    }

    /** One access of n bytes, converted to little-endian and copied to the buffer. */
    method GetWord(offset: nat, buf: array<byte>, at: nat, n: nat)
      requires offset + n <= |cfg| && at + n <= buf.Length
      modifies buf
      ensures buf[..] == Splice(old(buf[..]), at, cfg[offset..offset + n])
    {
      var w := ReadAdapter(offset, n);
      ReadPathsAgree(cfg, offset, n);
      var bs := LeBytes(Truncated(w, n), n);
      CopyTo(buf, at, bs);
    }

    /** memcpy into the caller's buffer. */
    method CopyTo(buf: array<byte>, at: nat, bs: seq<byte>)
      requires at + |bs| <= buf.Length
      modifies buf
      ensures buf[..] == Splice(old(buf[..]), at, bs)
    {
      var n := |bs|;
      for i := 0 to n
        invariant forall j :: 0 <= j < buf.Length ==>
                    buf[j] == if at <= j < at + i then bs[j - at] else old(buf[j])
      {
        buf[at + i] := bs[i];
      }
    }

    method SetWord(offset: nat, buf: array<byte>, at: nat, n: nat)
      requires offset + n <= |cfg| && at + n <= buf.Length
      modifies this
      ensures cfg == Splice(old(cfg), offset, buf[at..at + n])
    {
      WritePathsAgree(cfg, offset, buf[at..at + n]);
      WriteAdapter(LeValue(buf[at..at + n]), offset, n);
    }

    /** The loop of version 1. */
    method GetBytes(offset: nat, buf: array<byte>, len: nat)
      requires offset + len <= |cfg| && len <= buf.Length
      modifies buf
      ensures buf[..] == Splice(old(buf[..]), 0, cfg[offset..offset + len])
    {
      for i := 0 to len
        invariant forall j :: 0 <= j < buf.Length ==> buf[j] == if j < i then cfg[offset + j] else old(buf[j])
      {
        var v := ReadAdapter(offset + i, 1);
        ByteAccess(cfg, offset + i, 0);
        buf[i] := v % 0x100;
      }
    }

    /** The two accesses of an eight-byte field. */
    method GetTwoWords(offset: nat, buf: array<byte>)
      requires offset + 8 <= |cfg| && 8 <= buf.Length
      modifies buf
      ensures buf[..] == Splice(old(buf[..]), 0, cfg[offset..offset + 8])
    {
      GetWord(offset, buf, 0, 4);
      GetWord(offset + 4, buf, 4, 4);
      SpliceTwice(old(buf[..]), 0, cfg[offset..offset + 8], 4);
      assert cfg[offset..offset + 8][..4] == cfg[offset..offset + 4];
      assert cfg[offset..offset + 8][4..] == cfg[offset + 4..offset + 8];
    }

    /** Both versions yield exactly the device's bytes; a length version 2 does not know is a BUG. */
    method VmGet(version: int, offset: nat, buf: array<byte>, len: nat) returns (bug: bool)
      requires offset + len <= |cfg| && len <= buf.Length
      modifies buf
      ensures bug <==> version != 1 && len != 1 && len != 2 && len != 4 && len != 8
      ensures buf[..] == if bug then old(buf[..]) else Splice(old(buf[..]), 0, cfg[offset..offset + len])
    {
      if version == 1 {
        GetBytes(offset, buf, len);
        return false;
      }
      match len {
      case 1 => GetWord(offset, buf, 0, 1);
      case 2 => GetWord(offset, buf, 0, 2);
      case 4 => GetWord(offset, buf, 0, 4);
      case 8 => GetTwoWords(offset, buf);
      case _ => return true;
      }
      return false;
    }

    /** The loop of version 1. */
    method SetBytes(offset: nat, buf: array<byte>, len: nat)
      requires offset + len <= |cfg| && len <= buf.Length
      modifies this
      ensures cfg == Splice(old(cfg), offset, buf[..len])
    {
      for i := 0 to len
        invariant cfg == Splice(old(cfg), offset, buf[..i])
      {
        ByteAccess(cfg, offset + i, buf[i]);
        WriteAdapter(buf[i], offset + i, 1);
        assert buf[..i + 1] == buf[..i] + [buf[i]];
      }
    }

    /** The two accesses of an eight-byte field. */
    method SetTwoWords(offset: nat, buf: array<byte>)
      requires offset + 8 <= |cfg| && 8 <= buf.Length
      modifies this
      ensures cfg == Splice(old(cfg), offset, buf[..8])
    {
      SetWord(offset, buf, 0, 4);
      SetWord(offset + 4, buf, 4, 4);
      SpliceTwice(old(cfg), offset, buf[..8], 4);
      assert buf[..8][..4] == buf[0..4] && buf[..8][4..] == buf[4..8];
    }

    /** Both versions put exactly the buffer's bytes at the offset and change nothing else. */
    method VmSet(version: int, offset: nat, buf: array<byte>, len: nat) returns (bug: bool)
      requires offset + len <= |cfg| && len <= buf.Length
      modifies this
      ensures bug <==> version != 1 && len != 1 && len != 2 && len != 4 && len != 8
      ensures cfg == if bug then old(cfg) else Splice(old(cfg), offset, buf[..len])
    {
      if version == 1 {
        SetBytes(offset, buf, len);
        return false;
      }
      match len {
      case 1 => SetWord(offset, buf, 0, 1);
      case 2 => SetWord(offset, buf, 0, 2);
      case 4 => SetWord(offset, buf, 0, 4);
      case 8 => SetTwoWords(offset, buf);
      case _ => return true;
      }
      return false;
    }

    /** What one version sets, either version gets back; all other bytes keep their values. */
    method SetThenGet(v1: int, v2: int, offset: nat, buf: array<byte>, back: array<byte>, len: nat)
      returns (bug: bool)
      requires offset + len <= |cfg| && len <= buf.Length && len == back.Length && buf != back
      modifies this, back
      ensures bug <==> (v1 != 1 || v2 != 1) && len != 1 && len != 2 && len != 4 && len != 8
      ensures !bug ==> back[..] == buf[..len]
      ensures forall i :: 0 <= i < |cfg| == |old(cfg)| && !(offset <= i < offset + len) ==> cfg[i] == old(cfg)[i]
      ensures |cfg| == |old(cfg)|
    {
      bug := VmSet(v1, offset, buf, len);
      if !bug {
        bug := VmGet(v2, offset, back, len);
      }
    }
  }
}
