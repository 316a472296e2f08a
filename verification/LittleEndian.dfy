/** Little-endian words in byte sequences. */
module LittleEndian {
  import opened Common

  function Pow256(n: nat): (r: nat)
    ensures r > 0
  {
    if n == 0 then 1 else 256 * Pow256(n - 1)
  }

  /** The value of bytes, lowest first. */
  function Le(bytes: seq<Byte>): (r: nat)
  {
    if bytes == [] then 0 else bytes[0] as int + 256 * Le(bytes[1..])
  }

  function ToLe(v: nat, n: nat): (r: seq<Byte>)
    ensures |r| == n
  {
    if n == 0 then [] else [v % 256] + ToLe(v / 256, n - 1)
  }

  /** A value shifted right by n bytes. */
  function Shifted(v: nat, n: nat): (r: nat)
  {
    if n == 0 then v else Shifted(v / 256, n - 1)
  }

  lemma {:induction false} LeBound(bytes: seq<Byte>)
    ensures Le(bytes) < Pow256(|bytes|)
  {
    if bytes != [] { LeBound(bytes[1..]); }
  }

  lemma {:induction false} LeToLe(v: nat, n: nat)
    requires v < Pow256(n)
    ensures Le(ToLe(v, n)) == v
  {
    if n > 0 {
      LeToLe(v / 256, n - 1);
      assert ToLe(v, n)[1..] == ToLe(v / 256, n - 1);
    }
  }

  lemma {:induction false} ToLeByte(v: nat, n: nat, i: nat)
    requires i < n
    ensures ToLe(v, n)[i] == Shifted(v, i) % 256
  {
    if i > 0 { ToLeByte(v / 256, n - 1, i - 1); }
  }

  lemma {:induction false} LeAppend(bytes: seq<Byte>, b: Byte)
    ensures Le(bytes + [b]) == Le(bytes) + b as int * Pow256(|bytes|)
  {
    if bytes == [] {
      assert [b][1..] == [];
    } else {
      LeAppend(bytes[1..], b);
      assert (bytes + [b])[1..] == bytes[1..] + [b];
      assert 256 * (b as int * Pow256(|bytes| - 1)) == b as int * Pow256(|bytes|);
    }
  }

  lemma Widths()
    ensures Pow256(2) == 0x1_0000 && Pow256(4) == 0x1_0000_0000 && Pow256(8) == UINT64_RANGE
  {
    assert Pow256(1) == 256 && Pow256(3) == 256 * Pow256(2);
    assert Pow256(5) == 256 * Pow256(4) && Pow256(6) == 256 * Pow256(5) && Pow256(7) == 256 * Pow256(6);
  }

  method ReadU16(image: seq<Byte>, offset: nat) returns (r: nat)
    requires offset + 2 <= |image|
    ensures r == Le(image[offset..offset + 2]) && r < 0x1_0000
  {
    var b: seq<int> := [image[offset], image[offset + 1]];
    r := b[0] + 256 * b[1];
    var s := image[offset..offset + 2];
    assert s[1..][1..] == [] && Le(s[1..]) == s[1] as int;
  }

  method ReadU32(image: seq<Byte>, offset: nat) returns (r: nat)
    requires offset + 4 <= |image|
    ensures r == Le(image[offset..offset + 4]) && r < UINT32_RANGE
  {
    var b: seq<int> := [image[offset], image[offset + 1], image[offset + 2], image[offset + 3]];
    r := b[0] + 256 * b[1] + 0x1_0000 * b[2] + 0x100_0000 * b[3];
    var s := image[offset..offset + 4];
    assert s[1..][1..] == s[2..] && s[2..][1..] == s[3..] && s[3..][1..] == [];
    assert Le(s[3..]) == s[3] as int && Le(s[2..]) == s[2] as int + 256 * s[3] as int;
  }

  method ReadU64(image: seq<Byte>, offset: nat) returns (value: nat)
    requires offset + 8 <= |image|
    ensures value == Le(image[offset..offset + 8]) && value < UINT64_RANGE
  {
    value := 0;
    var i: nat, unit: nat := 0, 1;
    while i < 8
      invariant i <= 8 && unit == Pow256(i) && value == Le(image[offset..offset + i])
    {
      LeAppend(image[offset..offset + i], image[offset + i]);
      assert image[offset..offset + i + 1] == image[offset..offset + i] + [image[offset + i]];
      var b: int := image[offset + i];
      value := value + b * unit;
      i, unit := i + 1, 256 * unit;
    }
    LeBound(image[offset..offset + 8]);
    Widths();
  }

  method WordBytes(value: nat) returns (word: seq<Byte>)
    ensures word == ToLe(value, 8)
  {
    word := [];
    var i: nat, rest := 0, value;
    while i < 8
      invariant i <= 8 && rest == Shifted(value, i) && word == ToLe(value, 8)[..i]
    {
      ToLeByte(value, 8, i);
      ShiftedStep(value, i);
      word := word + [rest % 256];
      rest := rest / 256;
      i := i + 1;
    }
  }

  lemma {:induction false} ShiftedStep(v: nat, n: nat)
    ensures Shifted(v, n + 1) == Shifted(v, n) / 256
  {
    if n > 0 { ShiftedStep(v / 256, n - 1); }
  }
}
