/** The script and output compression of CScriptCompressor and CTxOutCompressor. */
module ScriptCodec {
  import opened Numbers
  import opened Options
  import opened VarInts
  import opened Amounts
  import opened CoinsTypes

  const OP_DUP: Byte := 0x76
  const OP_EQUAL: Byte := 0x87
  const OP_EQUALVERIFY: Byte := 0x88
  const OP_HASH160: Byte := 0xa9
  const OP_CHECKSIG: Byte := 0xac

  const SPECIAL_SCRIPTS: nat := 6
  const TWO_32: nat := 0x1_0000_0000

  // What the curve library answers: whether a 65-byte key is fully valid, and the 65-byte
  // form of a 33-byte key, if it has one.
  datatype Curve = Curve(isFullyValid: seq<Byte> -> bool, decompress: seq<Byte> -> Option<seq<Byte>>)

  function ShortKey(key: seq<Byte>): seq<Byte>
    requires |key| == 65
  {
    [2 + key[64] % 2] + key[1..33]
  }

  // Decompressing the short form of a fully valid key gives the key back; the result of
  // decompressing always has 65 bytes.
  ghost predicate IsCurve(c: Curve) {
    && (forall key: seq<Byte> | |key| == 65 && key[0] == 4 && c.isFullyValid(key) :: c.decompress(ShortKey(key)) == Some(key))
    && (forall key: seq<Byte> | c.decompress(key).Some? :: |c.decompress(key).value| == 65)
  }

  predicate IsToKeyID(s: seq<Byte>) {
    |s| == 25 && s[0] == OP_DUP && s[1] == OP_HASH160 && s[2] == 20 && s[23] == OP_EQUALVERIFY && s[24] == OP_CHECKSIG
  }

  predicate IsToScriptID(s: seq<Byte>) {
    |s| == 23 && s[0] == OP_HASH160 && s[1] == 20 && s[22] == OP_EQUAL
  }

  predicate IsToShortKey(s: seq<Byte>) {
    |s| == 35 && s[0] == 33 && s[34] == OP_CHECKSIG && (s[1] == 2 || s[1] == 3)
  }

  predicate IsToLongKey(curve: Curve, s: seq<Byte>) {
    |s| == 67 && s[0] == 65 && s[66] == OP_CHECKSIG && s[1] == 4 && curve.isFullyValid(s[1..66])
  }

  // Compress: the special form of a script that has one.
  function Compress(curve: Curve, s: seq<Byte>): Option<seq<Byte>> {
    if IsToKeyID(s) then Some([0] + s[3..23])
    else if IsToScriptID(s) then Some([1] + s[2..22])
    else if IsToShortKey(s) then Some([s[1]] + s[2..34])
    else if IsToLongKey(curve, s) then Some([4 + s[65] % 2] + s[2..34])
    else None
  }

  function GetSpecialSize(nSize: nat): nat {
    if nSize == 0 || nSize == 1 then 20
    else if 2 <= nSize <= 5 then 32
    else 0
  }

  // Decompress: the script of a special form, or None where the source leaves its script alone.
  function Decompress(curve: Curve, nSize: nat, d: seq<Byte>): Option<seq<Byte>>
    requires nSize < SPECIAL_SCRIPTS && |d| == GetSpecialSize(nSize)
  {
    if nSize == 0 then Some([OP_DUP, OP_HASH160, 20] + d + [OP_EQUALVERIFY, OP_CHECKSIG])
    else if nSize == 1 then Some([OP_HASH160, 20] + d + [OP_EQUAL])
    else if nSize <= 3 then Some([33, nSize] + d + [OP_CHECKSIG])
    else
      match curve.decompress([nSize - 2] + d)
      case None => None
      case Some(key) => Some([65] + key + [OP_CHECKSIG])
  }

  // ---------------------------------------------------------------- scripts on a stream

  function ScriptBytes(curve: Curve, s: seq<Byte>): seq<Byte> {
    match Compress(curve, s)
    case Some(compr) => compr
    case None => VarInt((|s| + SPECIAL_SCRIPTS) % TWO_32) + s
  }

  // Reading a script into one that was `before`.
  function ParseScript(curve: Curve, s: seq<Byte>, before: seq<Byte>): Parsed<seq<Byte>> {
    match ParseVarInt(s, 0, TWO_32)
    case None => None
    case Some((nSize, t)) =>
      if nSize < SPECIAL_SCRIPTS then
        var n := GetSpecialSize(nSize);
        if |t| < n then None
        else
          match Decompress(curve, nSize, t[..n])
          case None => Some((before, t[n..]))
          case Some(script) => Some((script, t[n..]))
      else if |t| < nSize - SPECIAL_SCRIPTS then None
      else Some((t[..nSize - SPECIAL_SCRIPTS], t[nSize - SPECIAL_SCRIPTS..]))
  }

  lemma ParseTag(tag: Byte, rest: seq<Byte>)
    requires tag <= 0x7F
    ensures ParseVarInt([tag] + rest, 0, TWO_32) == Some((tag as nat, rest))
  {
    ParseWritten(tag, rest, TWO_32);
  }

  // A slice of a slice.
  lemma SliceOfSlice<T>(s: seq<T>, i: nat, j: nat, k: nat, n: nat)
    requires i <= j <= |s| && k <= n <= j - i
    ensures s[i..j][k..n] == s[i + k..i + n]
  {
    forall x | 0 <= x < n - k ensures s[i..j][k..n][x] == s[i + k..i + n][x] {
      assert s[i..j][k + x] == s[i + k + x];
    }
  }

  // The key of a pay-to-key script, and what its compressed form keeps of it.
  lemma LongKey(s: seq<Byte>)
    requires |s| == 67
    ensures |s[1..66]| == 65 && s[1..66][64] == s[65] && s[1..66][1..33] == s[2..34]
    ensures s == [s[0]] + s[1..66] + [s[66]]
  {
    SliceOfSlice(s, 1, 66, 1, 33);
  }

  lemma DecompressLongKey(curve: Curve, s: seq<Byte>)
    requires IsCurve(curve) && IsToLongKey(curve, s)
    ensures curve.decompress([2 + s[65] % 2] + s[2..34]) == Some(s[1..66])
  {
    LongKey(s);
    var key := s[1..66];
    assert key[0] == 4 && ShortKey(key) == [2 + s[65] % 2] + s[2..34];
    assert curve.decompress(ShortKey(key)) == Some(key);
  }

  lemma DecompressCompress(curve: Curve, s: seq<Byte>)
    requires IsCurve(curve) && Compress(curve, s).Some?
    ensures var c := Compress(curve, s).value;
            && c != [] && c[0] < SPECIAL_SCRIPTS && |c| == 1 + GetSpecialSize(c[0])
            && Decompress(curve, c[0], c[1..]) == Some(s)
  {
    hide IsCurve;
    var c := Compress(curve, s).value;
    if IsToKeyID(s) {
      assert s == [OP_DUP, OP_HASH160, 20] + s[3..23] + [OP_EQUALVERIFY, OP_CHECKSIG];
      assert c[1..] == s[3..23];
    } else if IsToScriptID(s) {
      assert s == [OP_HASH160, 20] + s[2..22] + [OP_EQUAL];
      assert c[1..] == s[2..22];
    } else if IsToShortKey(s) {
      assert s == [33, s[1]] + s[2..34] + [OP_CHECKSIG];
      assert c[1..] == s[2..34];
    } else {
      LongKey(s);
      DecompressLongKey(curve, s);
      assert c[1..] == s[2..34];
    }
  }

  // Reading a written script gives it back, whatever was there before.
  lemma ParseScriptBytes(curve: Curve, s: seq<Byte>, t: seq<Byte>, before: seq<Byte>)
    requires IsCurve(curve) && |s| + SPECIAL_SCRIPTS < TWO_32
    ensures ParseScript(curve, ScriptBytes(curve, s) + t, before) == Some((s, t))
  {
    hide ParseVarInt, VarInt, IsCurve, Decompress;
    match Compress(curve, s)
    case Some(c) =>
      DecompressCompress(curve, s);
      var rest := c[1..] + t;
      assert c + t == [c[0]] + rest;
      ParseTag(c[0], rest);
      assert rest[..GetSpecialSize(c[0])] == c[1..] && rest[GetSpecialSize(c[0])..] == t;
    case None =>
      var n := |s| + SPECIAL_SCRIPTS;
      ParseWritten(n, s + t, TWO_32);
      assert VarInt(n) + s + t == VarInt(n) + (s + t);
  }

  method SerializeScript(curve: Curve, script: seq<Byte>, s: CDataStream)
    modifies s
    ensures s.data == old(s.data) + ScriptBytes(curve, script)
  {
    var compr := Compress(curve, script);
    if compr.Some? {
      s.Write(compr.value);
      return;
    }
    var nSize := (|script| + SPECIAL_SCRIPTS) % TWO_32;
    PowersOfTwo();
    WriteVarInt(s, nSize, 32);
    s.Write(script);
  }

  method ScriptSize(curve: Curve, script: seq<Byte>) returns (n: nat)
    ensures n == |ScriptBytes(curve, script)|
  {
    var compr := Compress(curve, script);
    if compr.Some? {
      return |compr.value|;
    }
    var size := GetSizeOfVarInt((|script| + SPECIAL_SCRIPTS) % TWO_32);
    n := |script| + size;
  }

  method UnserializeScript(curve: Curve, before: seq<Byte>, s: CDataStream) returns (r: Option<seq<Byte>>)
    modifies s
    ensures ParseScript(curve, old(s.data), before) == if r.None? then None else Some((r.value, s.data))
  {
    var nSize := ReadVarInt(s, TWO_32);
    if nSize.None? {
      return None;
    }
    if nSize.value < SPECIAL_SCRIPTS {
      var vch := s.ReadBytes(GetSpecialSize(nSize.value));
      if vch.None? {
        return None;
      }
      var script := Decompress(curve, nSize.value, vch.value);
      return Some(if script.Some? then script.value else before);
    }
    r := s.ReadBytes(nSize.value - SPECIAL_SCRIPTS);
  }

  // ---------------------------------------------------------------- outputs on a stream

  // A signed 64-bit amount from its unsigned form.
  function Signed64(u: nat): int {
    if u < TWO_64 / 2 then u else u - TWO_64
  }

  function TxOutBytes(curve: Curve, o: TxOut): seq<Byte> {
    VarInt(Compressed(o.nValue % TWO_64) % TWO_64) + ScriptBytes(curve, o.script)
  }

  // Reading into a default-constructed output.
  function ParseTxOut(curve: Curve, s: seq<Byte>): Parsed<TxOut> {
    match ParseVarInt(s, 0, TWO_64)
    case None => None
    case Some((nVal, t)) =>
      match ParseScript(curve, t, [])
      case None => None
      case Some((script, u)) => Some((TxOut(Signed64(Decompressed(nVal) % TWO_64), script), u))
  }

  // An output whose value and script length fit their integer types in compressed form.
  predicate OutFits(o: TxOut) {
    && 0 <= o.nValue < TWO_64 / 2 && Compressed(o.nValue) < TWO_64
    && |o.script| + SPECIAL_SCRIPTS < TWO_32
  }

  lemma ParseTxOutBytes(curve: Curve, o: TxOut, t: seq<Byte>)
    requires IsCurve(curve) && OutFits(o)
    ensures ParseTxOut(curve, TxOutBytes(curve, o) + t) == Some((o, t))
  {
    hide ParseVarInt, VarInt, IsCurve, ParseScript, ScriptBytes, Compressed, Decompressed;
    var x := Compressed(o.nValue);
    ParseWritten(x, ScriptBytes(curve, o.script) + t, TWO_64);
    assert VarInt(x) + ScriptBytes(curve, o.script) + t == VarInt(x) + (ScriptBytes(curve, o.script) + t);
    ParseScriptBytes(curve, o.script, t, []);
    Amounts.DecompressCompress(o.nValue);
  }

  lemma Power64()
    ensures Pow(2, 64) == TWO_64
  {
    PowersOfTwo();
    PowAdd(2, 32, 32);
  }

  method SerializeTxOut(curve: Curve, o: TxOut, s: CDataStream)
    modifies s
    ensures s.data == old(s.data) + TxOutBytes(curve, o)
  {
    hide VarInt, ScriptBytes, Compressed;
    var nVal := CompressAmount(o.nValue % TWO_64);
    Power64();
    WriteVarInt(s, nVal, 64);
    VarIntOfNat(nVal);
    SerializeScript(curve, o.script, s);
  }

  lemma VarIntOfNat(n: nat)
    ensures VarIntOf(n) == VarInt(n)
  {
  }

  method TxOutSize(curve: Curve, o: TxOut) returns (n: nat)
    ensures n == |TxOutBytes(curve, o)|
  {
    hide VarInt, ScriptBytes, Compressed;
    var nVal := CompressAmount(o.nValue % TWO_64);
    VarIntOfNat(nVal);
    var a := GetSizeOfVarInt(nVal);
    var b := ScriptSize(curve, o.script);
    n := a + b;
  }

  method UnserializeTxOut(curve: Curve, s: CDataStream) returns (r: Option<TxOut>)
    modifies s
    ensures ParseTxOut(curve, old(s.data)) == if r.None? then None else Some((r.value, s.data))
  {
    hide ParseScript, Decompressed;
    var nVal := ReadVarInt(s, TWO_64);
    if nVal.None? {
      return None;
    }
    ParsedBelow(old(s.data), 0, TWO_64);
    var nValue := DecompressAmount(nVal.value);
    var script := UnserializeScript(curve, [], s);
    if script.None? {
      return None;
    }
    r := Some(TxOut(Signed64(nValue), script.value));
  }

  lemma {:induction false} ParsedBelow(s: seq<Byte>, n: nat, width: nat)
    requires width > 0 && ParseVarInt(s, n, width).Some?
    ensures ParseVarInt(s, n, width).value.0 < width
    decreases |s|
  {
    if s[0] >= 128 {
      ParsedBelow(s[1..], ((n * 128 + s[0] % 128) % width + 1) % width, width);
    }
  }
}
