/** Byte streams and the variable-length integers written to them. */
module VarInts {
  import opened Numbers
  import opened Options

  // A parse takes a value off the front, or finds the stream too short.
  type Parsed<T> = Option<(T, seq<Byte>)>

  class CDataStream {
    var data: seq<Byte>

    constructor ()
      ensures data == []
    {
      data := [];
    }

    method Write(bytes: seq<Byte>)
      modifies this
      ensures data == old(data) + bytes
    {
      data := data + bytes;
    }

    method Read() returns (b: Option<Byte>)
      modifies this
      ensures old(data) == [] ==> b == None && data == []
      ensures old(data) != [] ==> b == Some(old(data)[0]) && data == old(data)[1..]
    {
      if data == [] {
        return None;
      }
      b := Some(data[0]);
      data := data[1..];
    }

    method ReadBytes(n: nat) returns (bytes: Option<seq<Byte>>)
      modifies this
      ensures |old(data)| < n ==> bytes == None
      ensures |old(data)| >= n ==> bytes == Some(old(data)[..n]) && data == old(data)[n..]
    {
      if |data| < n {
        return None;
      }
      bytes := Some(data[..n]);
      data := data[n..];
    }
  }

  // The bytes before the last one: seven bits each, with the high bit set, of a number that
  // is one less for each byte that follows.
  function Leading(n: nat): seq<Byte> {
    if n <= 0x7F then [n + 0x80] else Leading(n / 128 - 1) + [n % 128 + 0x80]
  }

  function VarInt(n: nat): seq<Byte> {
    if n <= 0x7F then [n] else Leading(n / 128 - 1) + [n % 128]
  }

  // An int that is negative passes the test for a single byte.
  function VarIntOf(n: int): seq<Byte> {
    if n <= 0x7F then [n % 128] else VarInt(n)
  }

  // Reading a number of a type that holds values below width, with n read so far.
  function ParseVarInt(s: seq<Byte>, n: nat, width: nat): Parsed<nat>
    requires width > 0
  {
    if s == [] then None else
      var m := (n * 128 + s[0] % 128) % width;
      if s[0] >= 128 then ParseVarInt(s[1..], (m + 1) % width, width) else Some((m, s[1..]))
  }

  // One byte read, as long as the number fits.
  lemma ParseByte(b: Byte, t: seq<Byte>, n: nat, m: nat, width: nat)
    requires m == n * 128 + b % 128 && m < width && (b >= 128 ==> m + 1 < width)
    ensures ParseVarInt([b] + t, n, width) == if b >= 128 then ParseVarInt(t, m + 1, width) else Some((m, t))
  {
    assert ([b] + t)[1..] == t;
    IsQuotient(m, width, 0, m);
    if b >= 128 {
      IsQuotient(m + 1, width, 0, m + 1);
    }
  }

  lemma {:induction false} ParseLeading(n: nat, t: seq<Byte>, width: nat)
    requires n + 1 < width
    ensures ParseVarInt(Leading(n) + t, 0, width) == ParseVarInt(t, n + 1, width)
  {
    hide ParseVarInt;
    if n <= 0x7F {
      ParseByte(n + 0x80, t, 0, n, width);
    } else {
      var b := n % 128 + 0x80;
      ParseLeading(n / 128 - 1, [b] + t, width);
      assert Leading(n) + t == Leading(n / 128 - 1) + ([b] + t);
      ParseByte(b, t, n / 128, n, width);
    }
  }

  // Reading what was written gives the number back, and leaves what follows.
  lemma ParseWritten(n: nat, t: seq<Byte>, width: nat)
    requires n < width
    ensures ParseVarInt(VarInt(n) + t, 0, width) == Some((n, t))
  {
    hide ParseVarInt;
    if n <= 0x7F {
      ParseByte(n, t, 0, n, width);
    } else {
      var b := n % 128;
      ParseLeading(n / 128 - 1, [b] + t, width);
      assert VarInt(n) + t == Leading(n / 128 - 1) + ([b] + t);
      ParseByte(b, t, n / 128, n, width);
    }
  }

  // k bytes are enough for every number below 128^k.
  lemma {:induction false} LeadingLength(n: nat, k: nat)
    requires n < Pow(128, k) && k > 0
    ensures |Leading(n)| <= k
  {
    if n > 0x7F {
      assert Pow(128, 1) == 128 * Pow(128, 0);
      LeadingLength(n / 128 - 1, k - 1);
    }
  }

  lemma VarIntLength(n: nat, k: nat)
    requires n < Pow(128, k) && k > 0
    ensures |VarInt(n)| <= k
  {
    if n > 0x7F {
      assert Pow(128, 1) == 128 * Pow(128, 0);
      LeadingLength(n / 128 - 1, k - 1);
    }
  }

  method GetSizeOfVarInt(n: int) returns (nRet: nat)
    ensures nRet == |VarIntOf(n)|
  {
    nRet := 0;
    var m := n;
    while true
      invariant m <= 0x7F ==> nRet + 1 == |VarIntOf(n)|
      invariant m > 0x7F ==> nRet + |VarInt(m)| == |VarIntOf(n)|
      decreases m
    {
      nRet := nRet + 1;
      if m <= 0x7F {
        break;
      }
      LeadingSize(m / 128 - 1);
      m := m / 128 - 1;
    }
  }

  lemma LeadingSize(n: nat)
    ensures |Leading(n)| == |VarInt(n)|
  {
  }

  // A number still to be written in front of digits already found.
  function InFrontOf(m: int, t: seq<Byte>): seq<Byte>
    requires t != [] ==> m >= 0
  {
    if t == [] then VarIntOf(m) else Leading(m) + t
  }

  function Digit(m: int, t: seq<Byte>): Byte {
    m % 128 + (if t == [] then 0 else 0x80)
  }

  lemma InFrontStep(m: int, t: seq<Byte>)
    requires m > 0x7F
    ensures InFrontOf(m, t) == InFrontOf(m / 128 - 1, [Digit(m, t)] + t)
    ensures |VarIntOf(m)| == |VarIntOf(m / 128 - 1)| + 1
  {
    var q, d := m / 128 - 1, m % 128;
    SplitOff(m);
    LeadingSize(q);
    hide Leading, VarInt;
    if t != [] {
      assert Leading(q) + [d + 0x80] + t == Leading(q) + ([d + 0x80] + t);
    }
  }

  lemma SplitOff(m: nat)
    requires m > 0x7F
    ensures VarInt(m) == Leading(m / 128 - 1) + [m % 128] && Leading(m) == Leading(m / 128 - 1) + [m % 128 + 0x80]
  {
  }

  lemma InFrontLast(m: int, t: seq<Byte>)
    requires m <= 0x7F && (t != [] ==> m >= 0)
    ensures InFrontOf(m, t) == [Digit(m, t)] + t
  {
  }

  // The digits go into a buffer of (bits + 6) / 7 bytes, last byte first, and out in reverse.
  method WriteVarInt(os: CDataStream, n: int, bits: nat)
    requires bits > 0 && n < Pow(2, bits)
    modifies os
    ensures os.data == old(os.data) + VarIntOf(n)
  {
    var tmp, len := FillDigits(n, bits);
    ghost var all := tmp[..len + 1];
    var i: int := len;
    ghost var before := os.data;
    assert all[..i + 1] == all;
    while i >= 0
      invariant -1 <= i <= len && tmp[..len + 1] == all
      invariant os.data + Backwards(all[..i + 1]) == before + Backwards(all)
    {
      assert all[..i + 1][..i] == all[..i] && tmp[i] == all[i];
      os.Write([tmp[i]]);
      i := i - 1;
    }
  }

  method FillDigits(n: int, bits: nat) returns (tmp: array<Byte>, len: nat)
    requires bits > 0 && n < Pow(2, bits)
    ensures fresh(tmp) && len < tmp.Length == (bits + 6) / 7
    ensures VarIntOf(n) == Backwards(tmp[..len + 1])
  {
    hide Pow, Leading, VarInt, VarIntOf, InFrontOf, Backwards;
    BufferSize(n, bits);
    tmp := new Byte[(bits + 6) / 7];
    len := 0;
    var m := n;
    ghost var t: seq<Byte> := [];
    assert VarIntOf(n) == InFrontOf(m, t) && t == Backwards(tmp[..0]) by { NothingYet(n, tmp[..0]); }
    while true
      invariant len + |VarIntOf(m)| <= tmp.Length && len == |t|
      invariant len > 0 ==> m >= 0
      invariant t == Backwards(tmp[..len]) && VarIntOf(n) == InFrontOf(m, t)
      decreases m
    {
      NonEmpty(m);
      tmp[len] := m % 128 + (if len > 0 then 0x80 else 0);
      BackwardsNext(tmp[..len + 1]);
      assert tmp[..len + 1][..len] == tmp[..len];
      if m <= 0x7F {
        InFrontLast(m, t);
        break;
      }
      InFrontStep(m, t);
      t := [tmp[len]] + t;
      m := m / 128 - 1;
      len := len + 1;
    }
  }

  lemma NonEmpty(m: int)
    ensures |VarIntOf(m)| > 0
  {
  }

  lemma NothingYet(n: int, s: seq<Byte>)
    requires s == []
    ensures VarIntOf(n) == InFrontOf(n, []) && Backwards(s) == []
  {
  }

  lemma BackwardsNext(s: seq<Byte>)
    requires s != []
    ensures Backwards(s) == [s[|s| - 1]] + Backwards(s[..|s| - 1])
  {
  }

  function Backwards(s: seq<Byte>): seq<Byte> {
    if s == [] then [] else [s[|s| - 1]] + Backwards(s[..|s| - 1])
  }

  lemma BufferSize(n: int, bits: nat)
    requires bits > 0 && n < Pow(2, bits)
    ensures |VarIntOf(n)| <= (bits + 6) / 7
  {
    if n > 0x7F {
      var k := (bits + 6) / 7;
      Septets(k);
      PowGrows(2, bits, 7 * k);
      VarIntLength(n, k);
    }
  }

  lemma {:induction false} Septets(k: nat)
    ensures Pow(128, k) == Pow(2, 7 * k)
  {
    if k > 0 {
      Septets(k - 1);
      PowAdd(2, 7, 7 * (k - 1));
      assert Pow(2, 7) == 128;
    }
  }

  // Reads a number; None at the end of the stream, where the source throws.
  method ReadVarInt(s: CDataStream, width: nat) returns (r: Option<nat>)
    requires width > 0
    modifies s
    ensures ParseVarInt(old(s.data), 0, width) == if r.None? then None else Some((r.value, s.data))
  {
    var n: nat := 0;
    while true
      invariant ParseVarInt(s.data, n, width) == ParseVarInt(old(s.data), 0, width)
      decreases |s.data|
    {
      var chData := s.Read();
      if chData.None? {
        return None;
      }
      n := (n * 128 + chData.value % 128) % width;
      if chData.value >= 0x80 {
        n := (n + 1) % width;
      } else {
        return Some(n);
      }
    }
  }
}
