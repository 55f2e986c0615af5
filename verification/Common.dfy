/** What several parts of the project share: options, bytes and their place in a buffer. */
module Common {
  datatype Option<+T> = None | Some(value: T)

  type Byte = x: int | 0 <= x < 256

  function Pow256(k: nat): (p: nat)
    ensures p > 0
  {
    if k == 0 then 1 else 256 * Pow256(k - 1)
  }

  lemma Widths()
    ensures Pow256(4) == 0x1_0000_0000 && Pow256(8) == 0x1_0000_0000_0000_0000
  {
    assert Pow256(4) == 256 * Pow256(3) && Pow256(3) == 256 * Pow256(2) && Pow256(2) == 256 * Pow256(1);
    assert Pow256(8) == 256 * Pow256(7) && Pow256(7) == 256 * Pow256(6) && Pow256(6) == 256 * Pow256(5);
  }

  /** The bytes `s` stand at offset `ptr`. */
  predicate At(data: seq<Byte>, ptr: nat, s: seq<Byte>) { ptr + |s| <= |data| && data[ptr..ptr + |s|] == s }

  lemma AtSplit(data: seq<Byte>, ptr: nat, a: seq<Byte>, b: seq<Byte>)
    ensures At(data, ptr, a + b) <==> At(data, ptr, a) && At(data, ptr + |a|, b)
  {
    if ptr + |a| + |b| <= |data| {
      var whole := data[ptr..ptr + |a + b|];
      assert whole == data[ptr..ptr + |a|] + data[ptr + |a|..ptr + |a| + |b|];
      assert whole == a + b ==> whole[..|a|] == a && whole[|a|..] == b;
    }
  }
}
