/**
 GGUF metadata values: their encoding, and the bounds-checked readers and skippers.
 A reader is a cursor into the file; skipping is described by functions from cursor to cursor.
 */
module GgufFormat {
  import opened Common

  const MAX_STRING_LEN: nat := 1048576
  const MAX_ARRAY_LEN: nat := 16777216
  const TYPE_UINT32: nat := 4
  const TYPE_INT32: nat := 5
  const TYPE_FLOAT32: nat := 6
  const TYPE_STRING: nat := 8
  const TYPE_ARRAY: nat := 9
  const TYPE_FLOAT64: nat := 12

  // ------------------------------------------------------------------ little-endian integers

  function Le(n: nat, k: nat): (s: seq<Byte>)
    ensures |s| == k
  {
    if k == 0 then [] else [n % 256] + Le(n / 256, k - 1)
  }

  function FromLe(s: seq<Byte>): nat {
    if s == [] then 0 else s[0] + 256 * FromLe(s[1..])
  }

  lemma {:induction false} FromLeOfLe(n: nat, k: nat)
    requires n < Pow256(k)
    ensures FromLe(Le(n, k)) == n
  {
    if k > 0 {
      FromLeOfLe(n / 256, k - 1);
      assert Le(n, k)[1..] == Le(n / 256, k - 1);
    }
  }

  lemma {:induction false} LeOfFromLe(s: seq<Byte>)
    ensures Le(FromLe(s), |s|) == s && FromLe(s) < Pow256(|s|)
  {
    if s != [] {
      LeOfFromLe(s[1..]);
      assert (s[0] + 256 * FromLe(s[1..])) / 256 == FromLe(s[1..]);
    }
  }

  // ------------------------------------------------------------------ values

  /** A metadata value; arrays name the type of their elements, which may be arrays again. */
  datatype Value =
    | Scalar(kind: nat, bytes: seq<Byte>)
    | Text(chars: seq<Byte>)
    | Array(elemType: nat, elems: seq<Value>)

  /** The size of a scalar type, or 0 for strings, arrays and unknown types. */
  function ScalarSize(t: nat): nat {
    if t in {0, 1, 7} then 1
    else if t in {2, 3} then 2
    else if t in {4, 5, 6} then 4
    else if t in {10, 11, 12} then 8
    else 0
  }

  function TypeOf(v: Value): nat {
    match v
    case Scalar(t, _) => t
    case Text(_) => TYPE_STRING
    case Array(_, _) => TYPE_ARRAY
  }

  predicate WellFormed(v: Value) {
    match v
    case Scalar(t, bytes) => |bytes| == ScalarSize(t) > 0
    case Text(chars) => |chars| <= MAX_STRING_LEN
    case Array(t, elems) =>
      && t < 0x1_0000_0000 && |elems| <= MAX_ARRAY_LEN
      && forall i :: 0 <= i < |elems| ==> TypeOf(elems[i]) == t && WellFormed(elems[i])
  }

  function EncodeText(chars: seq<Byte>): seq<Byte> { Le(|chars|, 8) + chars }

  function Encode(v: Value): seq<Byte>
    decreases v
  {
    match v
    case Scalar(_, bytes) => bytes
    case Text(chars) => EncodeText(chars)
    case Array(t, elems) => Le(t, 4) + Le(|elems|, 8) + EncodeAll(elems)
  }

  function EncodeAll(vs: seq<Value>): seq<Byte>
    decreases vs
  {
    if vs == [] then [] else Encode(vs[0]) + EncodeAll(vs[1..])
  }

  // ------------------------------------------------------------------ cursors

  /** An integer of k bytes, if that many are left. */
  function Read(data: seq<Byte>, ptr: nat, k: nat): Option<nat> {
    if ptr + k > |data| then None else Some(FromLe(data[ptr..ptr + k]))
  }

  lemma ReadEncoded(data: seq<Byte>, ptr: nat, n: nat, k: nat)
    requires n < Pow256(k) && At(data, ptr, Le(n, k))
    ensures Read(data, ptr, k) == Some(n)
  {
    FromLeOfLe(n, k);
  }

  /** Where a failed or successful skip leaves the cursor. */
  datatype Skip = Skip(ok: bool, ptr: nat)

  /** `safe_read_string`, as far as the cursor is concerned. */
  function SkipText(data: seq<Byte>, ptr: nat): Skip {
    var len := Read(data, ptr, 8);
    if len.None? then Skip(false, ptr)
    else if len.value > MAX_STRING_LEN || ptr + 8 + len.value > |data| then Skip(false, ptr + 8)
    else Skip(true, ptr + 8 + len.value)
  }

  /** The bytes that are left; none when the cursor is past the end. */
  function Left(data: seq<Byte>, ptr: nat): nat { if ptr <= |data| then |data| - ptr else 0 }

  /** `gguf_skip_value`. A success consumes at least one byte; no outcome leaves the file. */
  function SkipValue(data: seq<Byte>, ptr: nat, t: nat): (r: Skip)
    ensures ptr <= r.ptr && (ptr <= |data| ==> r.ptr <= |data|)
    ensures r.ok ==> ptr < r.ptr <= |data|
    decreases Left(data, ptr), 1
  {
    if ScalarSize(t) > 0 then
      if ptr + ScalarSize(t) > |data| then Skip(false, ptr) else Skip(true, ptr + ScalarSize(t))
    else if t == TYPE_STRING then SkipText(data, ptr)
    else if t == TYPE_ARRAY then SkipArray(data, ptr)
    else Skip(false, ptr)
  }

  /** `gguf_skip_array`. */
  function SkipArray(data: seq<Byte>, ptr: nat): (r: Skip)
    ensures ptr <= r.ptr && (ptr <= |data| ==> r.ptr <= |data|)
    ensures r.ok ==> ptr < r.ptr <= |data|
    decreases Left(data, ptr), 0
  {
    var t := Read(data, ptr, 4);
    if t.None? then Skip(false, ptr)
    else
      var n := Read(data, ptr + 4, 8);
      if n.None? then Skip(false, ptr + 4)
      else if n.value > MAX_ARRAY_LEN then Skip(false, ptr + 12)
      else SkipElems(data, ptr + 12, t.value, n.value)
  }

  /** The element loop of `gguf_skip_array`. */
  function SkipElems(data: seq<Byte>, ptr: nat, t: nat, n: nat): (r: Skip)
    ensures ptr <= r.ptr && (ptr <= |data| ==> r.ptr <= |data|)
    decreases Left(data, ptr), 2
  {
    if n == 0 then Skip(true, ptr)
    else
      var r := SkipValue(data, ptr, t);
      if r.ok then SkipElems(data, r.ptr, t, n - 1) else r
  }

  // ------------------------------------------------------------------ skipping is parsing

  /** A well-formed value is skipped to its last byte, however deep its arrays. */
  lemma {:induction false} SkipEncoded(data: seq<Byte>, ptr: nat, v: Value)
    requires WellFormed(v) && At(data, ptr, Encode(v))
    ensures SkipValue(data, ptr, TypeOf(v)) == Skip(true, ptr + |Encode(v)|)
    decreases v
  {
    Widths();
    match v
    case Scalar(t, bytes) =>
    case Text(chars) =>
      AtSplit(data, ptr, Le(|chars|, 8), chars);
      ReadEncoded(data, ptr, |chars|, 8);
    case Array(t, elems) =>
      var head := Le(t, 4) + Le(|elems|, 8);
      AtSplit(data, ptr, head, EncodeAll(elems));
      AtSplit(data, ptr, Le(t, 4), Le(|elems|, 8));
      ReadEncoded(data, ptr, t, 4);
      ReadEncoded(data, ptr + 4, |elems|, 8);
      SkipAllEncoded(data, ptr + 12, t, elems);
  }

  lemma {:induction false} SkipAllEncoded(data: seq<Byte>, ptr: nat, t: nat, vs: seq<Value>)
    requires forall i :: 0 <= i < |vs| ==> TypeOf(vs[i]) == t && WellFormed(vs[i])
    requires At(data, ptr, EncodeAll(vs))
    ensures SkipElems(data, ptr, t, |vs|) == Skip(true, ptr + |EncodeAll(vs)|)
    decreases vs
  {
    if vs != [] {
      AtSplit(data, ptr, Encode(vs[0]), EncodeAll(vs[1..]));
      SkipEncoded(data, ptr, vs[0]);
      SkipAllEncoded(data, ptr + |Encode(vs[0])|, t, vs[1..]);
    }
  }

  /** The value a successful skip passed over. */
  ghost function ValueAt(data: seq<Byte>, ptr: nat, t: nat): Value
    requires SkipValue(data, ptr, t).ok
    decreases Left(data, ptr), 1
  {
    if ScalarSize(t) > 0 then Scalar(t, data[ptr..ptr + ScalarSize(t)])
    else if t == TYPE_STRING then Text(data[ptr + 8..SkipText(data, ptr).ptr])
    else
      assert SkipArray(data, ptr).ok;
      var et, n := Read(data, ptr, 4).value, Read(data, ptr + 4, 8).value;
      Array(et, ElemsAt(data, ptr + 12, et, n))
  }

  ghost function ElemsAt(data: seq<Byte>, ptr: nat, t: nat, n: nat): (vs: seq<Value>)
    requires SkipElems(data, ptr, t, n).ok
    ensures |vs| == n
    decreases Left(data, ptr), 2
  {
    if n == 0 then []
    else [ValueAt(data, ptr, t)] + ElemsAt(data, SkipValue(data, ptr, t).ptr, t, n - 1)
  }

  /** Whatever is skipped successfully was a well-formed value of the expected type. */
  lemma {:induction false} SkippedIsValue(data: seq<Byte>, ptr: nat, t: nat)
    requires SkipValue(data, ptr, t).ok
    ensures var v := ValueAt(data, ptr, t);
      WellFormed(v) && TypeOf(v) == t && data[ptr..SkipValue(data, ptr, t).ptr] == Encode(v)
    decreases Left(data, ptr), 1
  {
    if ScalarSize(t) > 0 {
    } else if t == TYPE_STRING {
      SkippedIsText(data, ptr);
    } else {
      var et, n := Read(data, ptr, 4).value, Read(data, ptr + 4, 8).value;
      SkippedAreValues(data, ptr + 12, et, n);
      SkippedIsArray(data, ptr, et, n, ElemsAt(data, ptr + 12, et, n), SkipElems(data, ptr + 12, et, n).ptr);
    }
  }

  lemma SkippedIsText(data: seq<Byte>, ptr: nat)
    requires SkipText(data, ptr).ok
    ensures var end := SkipText(data, ptr).ptr;
      |data[ptr + 8..end]| <= MAX_STRING_LEN && data[ptr..end] == EncodeText(data[ptr + 8..end])
  {
    var end := SkipText(data, ptr).ptr;
    LeOfFromLe(data[ptr..ptr + 8]);
    assert data[ptr..end] == data[ptr..ptr + 8] + data[ptr + 8..end];
  }

  /** The head of an array in front of its elements. */
  lemma SkippedIsArray(data: seq<Byte>, ptr: nat, t: nat, n: nat, vs: seq<Value>, end: nat)
    requires ptr + 12 <= end <= |data| && |vs| == n
    requires Read(data, ptr, 4) == Some(t) && Read(data, ptr + 4, 8) == Some(n)
    requires data[ptr + 12..end] == EncodeAll(vs)
    ensures t < 0x1_0000_0000 && data[ptr..end] == Encode(Array(t, vs))
  {
    hide FromLe, Le, EncodeAll;
    Widths();
    LeOfFromLe(data[ptr..ptr + 4]);
    LeOfFromLe(data[ptr + 4..ptr + 12]);
    assert data[ptr..end] == data[ptr..ptr + 4] + data[ptr + 4..ptr + 12] + data[ptr + 12..end];
  }

  lemma {:induction false} SkippedAreValues(data: seq<Byte>, ptr: nat, t: nat, n: nat)
    requires SkipElems(data, ptr, t, n).ok && ptr <= |data|
    ensures var vs := ElemsAt(data, ptr, t, n);
      && (forall i :: 0 <= i < n ==> TypeOf(vs[i]) == t && WellFormed(vs[i]))
      && data[ptr..SkipElems(data, ptr, t, n).ptr] == EncodeAll(vs)
    decreases Left(data, ptr), 2
  {
    if n > 0 {
      var mid, end := SkipValue(data, ptr, t).ptr, SkipElems(data, ptr, t, n).ptr;
      SkippedIsValue(data, ptr, t);
      SkippedAreValues(data, mid, t, n - 1);
      hide WellFormed, TypeOf, SkipText, SkipValue, Encode, EncodeAll, ValueAt;
      ConsValues(data, ptr, mid, end, t, ValueAt(data, ptr, t), ElemsAt(data, mid, t, n - 1));
    }
  }

  /** A value in front of others. */
  lemma ConsValues(data: seq<Byte>, ptr: nat, mid: nat, end: nat, t: nat, first: Value, rest: seq<Value>)
    requires ptr <= mid <= end <= |data| && data[ptr..mid] == Encode(first) && data[mid..end] == EncodeAll(rest)
    requires TypeOf(first) == t && WellFormed(first)
    requires forall i :: 0 <= i < |rest| ==> TypeOf(rest[i]) == t && WellFormed(rest[i])
    ensures var vs := [first] + rest;
      && (forall i :: 0 <= i < |vs| ==> TypeOf(vs[i]) == t && WellFormed(vs[i]))
      && data[ptr..end] == EncodeAll(vs)
  {
    hide WellFormed, TypeOf, Encode;
    assert ([first] + rest)[1..] == rest;
    assert data[ptr..end] == data[ptr..mid] + data[mid..end];
  }

  /** `gguf_skip_value` succeeds exactly when a well-formed value of that type stands at the
      cursor, and then moves the cursor by exactly the value's encoded length. */
  lemma SkipSucceedsIff(data: seq<Byte>, ptr: nat, t: nat)
    ensures SkipValue(data, ptr, t).ok
       <==> exists v: Value :: WellFormed(v) && TypeOf(v) == t && At(data, ptr, Encode(v))
    ensures forall v: Value :: WellFormed(v) && TypeOf(v) == t && At(data, ptr, Encode(v)) ==>
      SkipValue(data, ptr, t).ptr == ptr + |Encode(v)|
  {
    forall v: Value | WellFormed(v) && TypeOf(v) == t && At(data, ptr, Encode(v))
      ensures SkipValue(data, ptr, t) == Skip(true, ptr + |Encode(v)|)
    {
      SkipEncoded(data, ptr, v);
    }
    if SkipValue(data, ptr, t).ok {
      SkippedIsValue(data, ptr, t);
      assert At(data, ptr, Encode(ValueAt(data, ptr, t)));
    }
  }

  // ------------------------------------------------------------------ the reader

  /** The cursor the parsing functions share through a pointer. */
  class Reader {
    const data: seq<Byte>
    var ptr: nat

    constructor (file: seq<Byte>, start: nat)
      ensures data == file && ptr == start
    {
      data := file;
      ptr := start;
    }

    /** `safe_read_u32` and `safe_read_u64`. */
    method ReadInt(k: nat) returns (value: Option<nat>)
      modifies this
      ensures value == Read(data, old(ptr), k)
      ensures ptr == old(ptr) + if value.Some? then k else 0
    {
      if ptr + k > |data| { return None; }
      var n, weight, i := 0, 1, 0;
      while i < k
        invariant i <= k && ptr == old(ptr) && weight == Pow256(i)
        invariant FromLe(data[ptr..ptr + k]) == n + weight * FromLe(data[ptr + i..ptr + k])
      {
        var rest := data[ptr + i..ptr + k];
        assert rest[1..] == data[ptr + i + 1..ptr + k];
        Shift(n, weight, rest[0], FromLe(rest[1..]));
        n, weight, i := n + weight * data[ptr + i], 256 * weight, i + 1;
      }
      ptr := ptr + k;
      return Some(n);
    }

    lemma Shift(n: int, w: int, b: int, r: int)
      ensures n + w * (b + 256 * r) == n + w * b + 256 * w * r
    {
    }

    /** `safe_read_string`: the bytes of the string; the caller copies what fits. */
    method ReadText() returns (text: Option<seq<Byte>>)
      modifies this
      ensures text.Some? == SkipText(data, old(ptr)).ok && ptr == SkipText(data, old(ptr)).ptr
      ensures text.Some? ==> text.value == data[old(ptr) + 8..ptr]
    {
      var len := ReadInt(8);
      if len.None? { return None; }
      if len.value > MAX_STRING_LEN || ptr + len.value > |data| { return None; }
      text := Some(data[ptr..ptr + len.value]);
      ptr := ptr + len.value;
    }

    /** `gguf_skip_array`. */
    method SkipArrayBody() returns (ok: bool)
      modifies this
      ensures Skip(ok, ptr) == SkipArray(data, old(ptr))
      decreases Left(data, ptr), 0
    {
      var t := ReadInt(4);
      if t.None? { return false; }
      var n := ReadInt(8);
      if n.None? { return false; }
      if n.value > MAX_ARRAY_LEN { return false; }
      ghost var start := ptr;
      var i := 0;
      while i < n.value
        invariant i <= n.value && start <= ptr
        invariant SkipElems(data, ptr, t.value, n.value - i) == SkipElems(data, start, t.value, n.value)
        decreases n.value - i
      {
        var done := SkipOne(t.value);
        if !done { return false; }
        i := i + 1;
      }
      return true;
    }

    /** `gguf_skip_value`. */
    method SkipOne(t: nat) returns (ok: bool)
      modifies this
      ensures Skip(ok, ptr) == SkipValue(data, old(ptr), t)
      decreases Left(data, ptr), 1
    {
      if ScalarSize(t) > 0 {
        if ptr + ScalarSize(t) > |data| { return false; }
        ptr := ptr + ScalarSize(t);
        ok := true;
      } else if t == TYPE_STRING {
        var text := ReadText();
        ok := text.Some?;
      } else if t == TYPE_ARRAY {
        ok := SkipArrayBody();
      } else {
        ok := false;
      }
    }
  }
}
