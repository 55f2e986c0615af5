/**
 GGUF key/value metadata: which keys the parser knows, what it keeps of them, and how far each
 pair moves the cursor.
 */
module GgufMetadata {
  import opened Common
  import opened GgufFormat

  const MAX_KEY_LEN: nat := 256
  const MAX_VOCAB: nat := 256000
  const MAX_TOKEN: nat := 1024
  const DEFAULT_ALIGN: nat := 32

  // ------------------------------------------------------------------ keys

  function Ascii(s: string): seq<Byte> { seq(|s|, i requires 0 <= i < |s| => (s[i] as int) % 256) }

  /** The copy `safe_read_string` leaves in a buffer of the given size. */
  function Clip(s: seq<Byte>, size: nat): (r: seq<Byte>)
    requires size > 0
    ensures r <= s && (|s| < size ==> r == s) && (|s| >= size ==> |r| == size - 1)
  {
    if |s| < size then s else s[..size - 1]
  }

  /** What the C string functions see of a buffer. */
  function UpToNul(s: seq<Byte>): (r: seq<Byte>)
    ensures r <= s && 0 !in r && (|r| < |s| ==> s[|r|] == 0)
  {
    if s == [] || s[0] == 0 then [] else [s[0]] + UpToNul(s[1..])
  }

  /** What `gguf_parse_kv_pair` does with a key of a given type. Field names stand for the members
      of `gguf_model_arch`; the architecture prefixes all write to the same ones. */
  datatype Action =
    | KeepText(field: seq<Byte>, size: nat)
    | KeepU32(field: seq<Byte>)
    | KeepAlignment
    | KeepF32(field: seq<Byte>)
    | KeepF64(field: seq<Byte>)
    | Tokens
    | Scores
    | TokenTypes
    | Ignore

  predicate StartsWith(s: seq<Byte>, prefix: seq<Byte>) { prefix <= s }

  /** The part of a key behind the first architecture prefix that matches. */
  function Subkey(key: seq<Byte>): Option<seq<Byte>> {
    if StartsWith(key, Ascii("llama.")) then Some(key[6..])
    else if StartsWith(key, Ascii("phi.")) then Some(key[4..])
    else if StartsWith(key, Ascii("mistral.")) then Some(key[8..])
    else if StartsWith(key, Ascii("qwen.")) then Some(key[5..])
    else if StartsWith(key, Ascii("qwen2.")) then Some(key[6..])
    else if StartsWith(key, Ascii("gemma.")) then Some(key[6..])
    else None
  }

  /** The parameters of an architecture: integers, and floats or doubles. */
  predicate IsCount(sub: seq<Byte>) {
    sub in [Ascii("context_length"), Ascii("embedding_length"), Ascii("block_count"), Ascii("feed_forward_length"),
            Ascii("attention.head_count"), Ascii("attention.head_count_kv"), Ascii("rope.dimension_count")]
  }

  predicate IsReal(sub: seq<Byte>) { sub in [Ascii("attention.layer_norm_rms_epsilon"), Ascii("rope.freq_base")] }

  function ArchAction(sub: seq<Byte>, t: nat): Action {
    if t == TYPE_UINT32 && IsCount(sub) then KeepU32(sub)
    else if t == TYPE_FLOAT32 && IsReal(sub) then KeepF32(sub)
    else if t == TYPE_FLOAT64 && IsReal(sub) then KeepF64(sub)
    else Ignore
  }

  function ArchitectureKey(): seq<Byte> { Ascii("general.architecture") }
  function NameKey(): seq<Byte> { Ascii("general.name") }
  function AlignmentKey(): seq<Byte> { Ascii("general.alignment") }
  function ModelKey(): seq<Byte> { Ascii("tokenizer.ggml.model") }
  function TokensKey(): seq<Byte> { Ascii("tokenizer.ggml.tokens") }
  function ScoresKey(): seq<Byte> { Ascii("tokenizer.ggml.scores") }
  function TokenTypesKey(): seq<Byte> { Ascii("tokenizer.ggml.token_type") }

  predicate IsFileNumber(key: seq<Byte>) {
    key in [Ascii("general.file_type"), Ascii("general.quantization_version")]
  }

  predicate IsTokenId(key: seq<Byte>) {
    key in [Ascii("tokenizer.ggml.bos_token_id"), Ascii("tokenizer.ggml.eos_token_id"),
            Ascii("tokenizer.ggml.padding_token_id")]
  }

  /** The comparisons of `gguf_parse_kv_pair`, in its order. */
  function Classify(key: seq<Byte>, t: nat): Action {
    if key == ArchitectureKey() && t == TYPE_STRING then KeepText(key, 64)
    else if key == NameKey() && t == TYPE_STRING then KeepText(key, 128)
    else if key == AlignmentKey() && t == TYPE_UINT32 then KeepAlignment
    else if IsFileNumber(key) && t == TYPE_UINT32 then KeepU32(key)
    else if Subkey(key).Some? && !ArchAction(Subkey(key).value, t).Ignore? then ArchAction(Subkey(key).value, t)
    else if key == ModelKey() && t == TYPE_STRING then KeepText(key, 64)
    else if IsTokenId(key) && t == TYPE_UINT32 then KeepU32(key)
    else if key == TokensKey() && t == TYPE_ARRAY then Tokens
    else if key == ScoresKey() && t == TYPE_ARRAY then Scores
    else if key == TokenTypesKey() && t == TYPE_ARRAY then TokenTypes
    else Ignore
  }

  /** Every field is kept from values of one type only. */
  lemma ClassifyTypes(key: seq<Byte>, t: nat)
    ensures Classify(key, t).KeepText? ==> t == TYPE_STRING && Classify(key, t).size > 0
    ensures Classify(key, t).KeepU32? || Classify(key, t).KeepAlignment? ==> t == TYPE_UINT32
    ensures Classify(key, t).KeepF32? ==> t == TYPE_FLOAT32
    ensures Classify(key, t).KeepF64? ==> t == TYPE_FLOAT64
    ensures Classify(key, t).Tokens? || Classify(key, t).Scores? || Classify(key, t).TokenTypes? ==> t == TYPE_ARRAY
  {
    hide Ascii, Subkey, ArchitectureKey, NameKey, AlignmentKey, ModelKey, TokensKey, ScoresKey, TokenTypesKey;
    hide IsCount, IsReal, IsFileNumber, IsTokenId;
  }

  // ------------------------------------------------------------------ what is kept

  /** A kept field: an integer, a string, a float's bits, or a double's bits to be narrowed. */
  datatype Field = U32(n: nat) | Chars(s: seq<Byte>) | F32(bits: nat) | Narrowed(bits: nat)

  /** The model description so far. A missing vocabulary text is a token that was not stored. */
  datatype Meta = Meta(fields: map<seq<Byte>, Field>, alignment: nat, vocab: seq<Option<seq<Byte>>>)

  function Set(m: Meta, field: seq<Byte>, value: Field): Meta { m.(fields := m.fields[field := value]) }

  /** A power of two up to 1 MB. */
  predicate GoodAlignment(n: nat) { 0 < n <= 1024 * 1024 && PowerOfTwo(n) }

  predicate PowerOfTwo(n: nat) { n == 1 || (n > 0 && n % 2 == 0 && PowerOfTwo(n / 2)) }

  function SetAlignment(m: Meta, n: nat): Meta {
    var a := if GoodAlignment(n) then n else DEFAULT_ALIGN;
    Set(m, AlignmentKey(), U32(a)).(alignment := a)
  }

  /** `is_valid_float64`: not a NaN, an infinity or a denormal. */
  predicate ValidDouble(bits: nat) {
    var exponent, mantissa := bits / 0x10_0000_0000_0000 % 0x800, bits % 0x10_0000_0000_0000;
    exponent != 0x7FF && (exponent == 0 ==> mantissa == 0)
  }

  // ------------------------------------------------------------------ one pair

  /** Success, the cursor, and the description. */
  datatype Outcome = Outcome(ok: bool, ptr: nat, meta: Meta)

  function Fail(ptr: nat, m: Meta): Outcome { Outcome(false, ptr, m) }

  /** A loop of skips whose results nobody looks at. */
  function SkipLoosely(data: seq<Byte>, ptr: nat, t: nat, n: nat): (end: nat)
    ensures ptr <= end && (ptr <= |data| ==> end <= |data|)
    decreases n
  {
    if n == 0 then ptr else SkipLoosely(data, SkipValue(data, ptr, t).ptr, t, n - 1)
  }

  /** The vocabulary loop: it stops when no length is left, and leaves the cursor in front of a
      text it refuses. */
  function ReadTokens(data: seq<Byte>, ptr: nat, n: nat): (r: (nat, seq<Option<seq<Byte>>>))
    ensures |r.1| == n && ptr <= r.0 && (ptr <= |data| ==> r.0 <= |data|)
    decreases n
  {
    if n == 0 then (ptr, [])
    else
      var len := Read(data, ptr, 8);
      if len.None? then (ptr, seq(n, _ => None))
      else if len.value > MAX_TOKEN || ptr + 8 + len.value > |data| then
        var (end, rest) := ReadTokens(data, ptr + 8, n - 1);
        (end, [None] + rest)
      else
        var (end, rest) := ReadTokens(data, ptr + 8 + len.value, n - 1);
        (end, [Some(data[ptr + 8..ptr + 8 + len.value])] + rest)
  }

  /** The three arrays of the tokeniser; `t` and `n` are read from the array's head. */
  function ArrayAction(data: seq<Byte>, ptr: nat, m: Meta, action: Action, t: nat, n: nat): Outcome {
    match action
    case Tokens =>
      if t != TYPE_STRING then Outcome(true, SkipLoosely(data, ptr, t, n), m)
      else
        var (end, texts) := ReadTokens(data, ptr, if n > MAX_VOCAB then MAX_VOCAB else n);
        Outcome(true, end, m.(vocab := texts))
    case Scores =>
      Outcome(true, if t == TYPE_FLOAT32 && n <= MAX_VOCAB then ptr + 4 * n else SkipLoosely(data, ptr, t, n), m)
    case _ =>
      if t == TYPE_INT32 && n <= MAX_VOCAB then Outcome(true, ptr + 4 * n, m)
      else
        var r := SkipValue(data, ptr, TYPE_ARRAY);
        Outcome(r.ok, r.ptr, m)
  }

  /** The value of a pair, given what its key and type call for. */
  function ParseValue(data: seq<Byte>, ptr: nat, m: Meta, action: Action, t: nat): Outcome {
    match action
    case KeepText(field, size) =>
      var r := SkipText(data, ptr);
      if !r.ok || size == 0 then Fail(r.ptr, m)
      else Outcome(true, r.ptr, Set(m, field, Chars(Clip(data[ptr + 8..r.ptr], size))))
    case KeepU32(field) =>
      var n := Read(data, ptr, 4);
      if n.None? then Fail(ptr, m) else Outcome(true, ptr + 4, Set(m, field, U32(n.value)))
    case KeepAlignment =>
      var n := Read(data, ptr, 4);
      if n.None? then Fail(ptr, m) else Outcome(true, ptr + 4, SetAlignment(m, n.value))
    case KeepF32(field) =>
      var n := Read(data, ptr, 4);
      if n.None? then Fail(ptr, m) else Outcome(true, ptr + 4, Set(m, field, F32(n.value)))
    case KeepF64(field) =>
      var n := Read(data, ptr, 8);
      if n.None? then Fail(ptr, m)
      else if !ValidDouble(n.value) then Fail(ptr + 8, m)
      else Outcome(true, ptr + 8, Set(m, field, Narrowed(n.value)))
    case Ignore =>
      var r := SkipValue(data, ptr, t);
      Outcome(r.ok, r.ptr, m)
    case _ =>
      var et := Read(data, ptr, 4);
      if et.None? then Fail(ptr, m)
      else
        var n := Read(data, ptr + 4, 8);
        if n.None? then Fail(ptr + 4, m) else ArrayAction(data, ptr + 12, m, action, et.value, n.value)
  }

  /** `gguf_parse_kv_pair`. */
  function ParsePair(data: seq<Byte>, ptr: nat, m: Meta): Outcome {
    var r := SkipText(data, ptr);
    if !r.ok then Fail(r.ptr, m)
    else
      var t := Read(data, r.ptr, 4);
      if t.None? then Fail(r.ptr, m)
      else ParseValue(data, r.ptr + 4, m, Classify(UpToNul(Clip(data[ptr + 8..r.ptr], MAX_KEY_LEN)), t.value), t.value)
  }

  /** The loop of `gguf_parse_metadata`. */
  function ParsePairs(data: seq<Byte>, ptr: nat, m: Meta, n: nat): Outcome
    decreases n
  {
    if n == 0 then Outcome(true, ptr, m)
    else
      var r := ParsePair(data, ptr, m);
      if r.ok then ParsePairs(data, r.ptr, r.meta, n - 1) else r
  }

  // ------------------------------------------------------------------ encoded pairs

  datatype Pair = Pair(key: seq<Byte>, value: Value)

  function EncodePair(p: Pair): seq<Byte> { EncodeText(p.key) + Le(TypeOf(p.value), 4) + Encode(p.value) }

  function EncodePairs(ps: seq<Pair>): seq<Byte> {
    if ps == [] then [] else EncodePair(ps[0]) + EncodePairs(ps[1..])
  }

  function ActionOf(p: Pair): Action { Classify(UpToNul(Clip(p.key, MAX_KEY_LEN)), TypeOf(p.value)) }

  /** A pair the format allows. */
  predicate Formed(p: Pair) { |p.key| <= MAX_STRING_LEN && WellFormed(p.value) }

  /** A pair that the parser reads as it is meant (`PairParsedIff`): its double is accepted, its
      vocabulary is within the limits, its token types are stepped over or happen to be skipped. */
  ghost predicate Regular(p: Pair) {
    && Formed(p)
    && match ActionOf(p)
       case KeepF64(_) => p.value.Scalar? ==> ValidDouble(FromLe(p.value.bytes))
       case Tokens => p.value.Array? && p.value.elemType == TYPE_STRING ==>
         |p.value.elems| <= MAX_VOCAB && forall i :: 0 <= i < |p.value.elems| ==> ShortText(p.value.elems[i])
       case TokenTypes => p.value.Array? ==> SteppedOver(p.value) || SpellsArray(EncodeAll(p.value.elems))
       case _ => true
  }

  /** Token types within the parser's limits are stepped over without being read. */
  predicate SteppedOver(v: Value)
    requires v.Array?
  {
    v.elemType == TYPE_INT32 && |v.elems| <= MAX_VOCAB
  }

  /** Any others have their elements read as if another array, head and all, began there. */
  ghost predicate SpellsArray(bytes: seq<Byte>) {
    exists a: Value :: a.Array? && WellFormed(a) && Encode(a) == bytes
  }

  predicate ShortText(v: Value) { v.Text? ==> |v.chars| <= MAX_TOKEN }

  /** What a pair adds to the description, said of the value itself. */
  function Effect(p: Pair, m: Meta): Meta {
    match ActionOf(p)
    case KeepText(field, size) =>
      if p.value.Text? && size > 0 then Set(m, field, Chars(Clip(p.value.chars, size))) else m
    case KeepU32(field) => if p.value.Scalar? then Set(m, field, U32(FromLe(p.value.bytes))) else m
    case KeepAlignment => if p.value.Scalar? then SetAlignment(m, FromLe(p.value.bytes)) else m
    case KeepF32(field) => if p.value.Scalar? then Set(m, field, F32(FromLe(p.value.bytes))) else m
    case KeepF64(field) => if p.value.Scalar? then Set(m, field, Narrowed(FromLe(p.value.bytes))) else m
    case Tokens =>
      if p.value.Array? && p.value.elemType == TYPE_STRING then m.(vocab := TextsOf(p.value.elems)) else m
    case _ => m
  }

  function TextsOf(vs: seq<Value>): (r: seq<Option<seq<Byte>>>)
    ensures |r| == |vs|
  {
    if vs == [] then [] else [if vs[0].Text? then Some(vs[0].chars) else None] + TextsOf(vs[1..])
  }

  function Effects(ps: seq<Pair>, m: Meta): Meta {
    if ps == [] then m else Effects(ps[1..], Effect(ps[0], m))
  }

  // ------------------------------------------------------------------ parsing what was encoded

  lemma SkipLooselyIsSkip(data: seq<Byte>, ptr: nat, t: nat, n: nat)
    requires SkipElems(data, ptr, t, n).ok
    ensures SkipLoosely(data, ptr, t, n) == SkipElems(data, ptr, t, n).ptr
    decreases n
  {
    if n > 0 { SkipLooselyIsSkip(data, SkipValue(data, ptr, t).ptr, t, n - 1); }
  }

  /** Scalars of four bytes take four bytes each. */
  lemma {:induction false} FourEach(vs: seq<Value>, t: nat)
    requires ScalarSize(t) == 4 && forall i :: 0 <= i < |vs| ==> TypeOf(vs[i]) == t && WellFormed(vs[i])
    ensures |EncodeAll(vs)| == 4 * |vs|
  {
    if vs != [] {
      FourEach(vs[1..], t);
      assert |Encode(vs[0])| == 4;
    }
  }

  lemma TextAt(data: seq<Byte>, ptr: nat, chars: seq<Byte>)
    requires |chars| <= MAX_STRING_LEN && At(data, ptr, EncodeText(chars))
    ensures SkipText(data, ptr) == Skip(true, ptr + 8 + |chars|)
    ensures Read(data, ptr, 8) == Some(|chars|) && data[ptr + 8..ptr + 8 + |chars|] == chars
  {
    Widths();
    AtSplit(data, ptr, Le(|chars|, 8), chars);
    ReadEncoded(data, ptr, |chars|, 8);
  }

  lemma TextFits(data: seq<Byte>, ptr: nat, chars: seq<Byte>)
    requires At(data, ptr, EncodeText(chars))
    ensures ptr + 8 + |chars| <= |data| && |EncodeText(chars)| == 8 + |chars|
  {
  }

  /** The vocabulary loop reads a list of texts as it is meant if and only if none of them is above
      1024 bytes: the first such text is not stored, and not stepped over either. */
  lemma {:induction false} TokensReadIff(data: seq<Byte>, ptr: nat, vs: seq<Value>)
    requires forall i :: 0 <= i < |vs| ==> TypeOf(vs[i]) == TYPE_STRING && WellFormed(vs[i])
    requires At(data, ptr, EncodeAll(vs))
    ensures ReadTokens(data, ptr, |vs|) == (ptr + |EncodeAll(vs)|, TextsOf(vs))
       <==> forall i :: 0 <= i < |vs| ==> ShortText(vs[i])
    decreases vs
  {
    hide At, Read, ReadTokens, TextsOf, WellFormed, Encode, EncodeAll;
    if vs == [] {
      NoTexts(data, ptr);
    } else {
      IsText(vs[0]);
      FirstText(data, ptr, vs);
      if ShortText(vs[0]) {
        HeadThenTail(data, ptr, vs);
        TokensReadIff(data, ptr + |Encode(vs[0])|, vs[1..]);
        assert forall i :: 1 <= i < |vs| ==> vs[i] == vs[1..][i - 1];
      } else {
        LongNotStored(data, ptr, vs);
      }
    }
  }

  lemma FirstText(data: seq<Byte>, ptr: nat, vs: seq<Value>)
    requires vs != [] && vs[0].Text? && WellFormed(vs[0]) && At(data, ptr, EncodeAll(vs))
    ensures At(data, ptr + |Encode(vs[0])|, EncodeAll(vs[1..]))
    ensures ptr + 8 + |vs[0].chars| <= |data| && |Encode(vs[0])| == 8 + |vs[0].chars|
    ensures Read(data, ptr, 8) == Some(|vs[0].chars|)
    ensures data[ptr + 8..ptr + 8 + |vs[0].chars|] == vs[0].chars
  {
    AtSplit(data, ptr, Encode(vs[0]), EncodeAll(vs[1..]));
    hide At, Read;
    TextAt(data, ptr, vs[0].chars);
    TextFits(data, ptr, vs[0].chars);
  }

  lemma NoTexts(data: seq<Byte>, ptr: nat)
    ensures ReadTokens(data, ptr, 0) == (ptr, []) && EncodeAll([]) == [] && TextsOf([]) == []
  {
  }

  lemma LongNotStored(data: seq<Byte>, ptr: nat, vs: seq<Value>)
    requires vs != [] && vs[0].Text? && !ShortText(vs[0]) && Read(data, ptr, 8) == Some(|vs[0].chars|)
    ensures ReadTokens(data, ptr, |vs|).1 != TextsOf(vs)
  {
    hide Read;
    assert ReadTokens(data, ptr, |vs|).1[0] == None && TextsOf(vs)[0] == Some(vs[0].chars);
  }

  /** Behind a short text the loop goes on with the rest of the list. */
  lemma HeadThenTail(data: seq<Byte>, ptr: nat, vs: seq<Value>)
    requires vs != [] && vs[0].Text? && ShortText(vs[0]) && ptr + 8 + |vs[0].chars| <= |data|
    requires Read(data, ptr, 8) == Some(|vs[0].chars|)
    requires data[ptr + 8..ptr + 8 + |vs[0].chars|] == vs[0].chars && |Encode(vs[0])| == 8 + |vs[0].chars|
    ensures ReadTokens(data, ptr, |vs|) == (ptr + |EncodeAll(vs)|, TextsOf(vs))
       <==> ReadTokens(data, ptr + |Encode(vs[0])|, |vs[1..]|)
            == (ptr + |Encode(vs[0])| + |EncodeAll(vs[1..])|, TextsOf(vs[1..]))
  {
    hide Read;
    var (end, rest) := ReadTokens(data, ptr + |Encode(vs[0])|, |vs| - 1);
    assert ReadTokens(data, ptr, |vs|) == (end, [Some(vs[0].chars)] + rest);
    assert TextsOf(vs) == [Some(vs[0].chars)] + TextsOf(vs[1..]);
    assert ReadTokens(data, ptr, |vs|).1[1..] == rest && TextsOf(vs)[1..] == TextsOf(vs[1..]);
    assert |EncodeAll(vs)| == |Encode(vs[0])| + |EncodeAll(vs[1..])|;
  }

  lemma IsText(v: Value)
    requires TypeOf(v) == TYPE_STRING && WellFormed(v)
    ensures v.Text? && Encode(v) == EncodeText(v.chars)
  {
  }

  /** The head of an array that stands at the cursor. */
  lemma ArrayAt(data: seq<Byte>, ptr: nat, v: Value)
    requires v.Array? && WellFormed(v) && At(data, ptr, Encode(v))
    ensures Read(data, ptr, 4) == Some(v.elemType) && Read(data, ptr + 4, 8) == Some(|v.elems|)
    ensures At(data, ptr + 12, EncodeAll(v.elems)) && |Encode(v)| == 12 + |EncodeAll(v.elems)|
  {
    Widths();
    var head := Le(v.elemType, 4) + Le(|v.elems|, 8);
    AtSplit(data, ptr, head, EncodeAll(v.elems));
    AtSplit(data, ptr, Le(v.elemType, 4), Le(|v.elems|, 8));
    ReadEncoded(data, ptr, v.elemType, 4);
    ReadEncoded(data, ptr + 4, |v.elems|, 8);
  }

  /** The three arrays of the tokeniser, each with its exact condition. */
  lemma TokensParsedIff(data: seq<Byte>, ptr: nat, m: Meta, v: Value)
    requires v.Array? && WellFormed(v) && At(data, ptr, Encode(v))
    ensures ArrayAction(data, ptr + 12, m, Tokens, v.elemType, |v.elems|)
         == Outcome(true, ptr + |Encode(v)|, if v.elemType == TYPE_STRING then m.(vocab := TextsOf(v.elems)) else m)
       <==> v.elemType == TYPE_STRING ==>
              |v.elems| <= MAX_VOCAB && forall i :: 0 <= i < |v.elems| ==> ShortText(v.elems[i])
  {
    ArrayAt(data, ptr, v);
    if v.elemType != TYPE_STRING {
      NoVocabulary(data, ptr + 12, m, v);
    } else {
      VocabularyIff(data, ptr + 12, m, v.elems);
    }
  }

  lemma NoVocabulary(data: seq<Byte>, ptr: nat, m: Meta, v: Value)
    requires v.Array? && WellFormed(v) && v.elemType != TYPE_STRING && At(data, ptr, EncodeAll(v.elems))
    ensures ArrayAction(data, ptr, m, Tokens, v.elemType, |v.elems|) == Outcome(true, ptr + |EncodeAll(v.elems)|, m)
  {
    SkipAllEncoded(data, ptr, v.elemType, v.elems);
    SkipLooselyIsSkip(data, ptr, v.elemType, |v.elems|);
  }

  lemma VocabularyIff(data: seq<Byte>, ptr: nat, m: Meta, vs: seq<Value>)
    requires forall i :: 0 <= i < |vs| ==> TypeOf(vs[i]) == TYPE_STRING && WellFormed(vs[i])
    requires At(data, ptr, EncodeAll(vs))
    ensures ArrayAction(data, ptr, m, Tokens, TYPE_STRING, |vs|)
            == Outcome(true, ptr + |EncodeAll(vs)|, m.(vocab := TextsOf(vs)))
       <==> |vs| <= MAX_VOCAB && forall i :: 0 <= i < |vs| ==> ShortText(vs[i])
  {
    hide At, Encode, EncodeAll, ReadTokens, TextsOf, ShortText, WellFormed;
    var n := if |vs| <= MAX_VOCAB then |vs| else MAX_VOCAB;
    OnlyVocab(m, ReadTokens(data, ptr, n).1, TextsOf(vs));
    TokensReadIff(data, ptr, vs);
  }

  lemma OnlyVocab(m: Meta, a: seq<Option<seq<Byte>>>, b: seq<Option<seq<Byte>>>)
    ensures m.(vocab := a) == m.(vocab := b) <==> a == b
  {
  }

  lemma ScoresParsed(data: seq<Byte>, ptr: nat, m: Meta, v: Value)
    requires v.Array? && WellFormed(v) && At(data, ptr, Encode(v))
    ensures ArrayAction(data, ptr + 12, m, Scores, v.elemType, |v.elems|) == Outcome(true, ptr + |Encode(v)|, m)
  {
    ArrayAt(data, ptr, v);
    SkipAllEncoded(data, ptr + 12, v.elemType, v.elems);
    SkipLooselyIsSkip(data, ptr + 12, v.elemType, |v.elems|);
    if ScalarSize(v.elemType) == 4 { FourEach(v.elems, v.elemType); }
  }

  /** Token types that are not 32-bit integers, or too many, are read as another array whose head would
      be their first twelve bytes: that works out exactly when the elements spell a well-formed array. */
  lemma TokenTypesParsedIff(data: seq<Byte>, ptr: nat, m: Meta, v: Value)
    requires v.Array? && WellFormed(v) && At(data, ptr, Encode(v))
    ensures ArrayAction(data, ptr + 12, m, TokenTypes, v.elemType, |v.elems|) == Outcome(true, ptr + |Encode(v)|, m)
       <==> SteppedOver(v) || SpellsArray(EncodeAll(v.elems))
  {
    ArrayAt(data, ptr, v);
    if SteppedOver(v) {
      FourEach(v.elems, v.elemType);
    } else {
      SpellsArrayIff(data, ptr + 12, EncodeAll(v.elems));
    }
  }

  lemma SpellsArrayIff(data: seq<Byte>, ptr: nat, bytes: seq<Byte>)
    requires At(data, ptr, bytes)
    ensures SkipValue(data, ptr, TYPE_ARRAY) == Skip(true, ptr + |bytes|) <==> SpellsArray(bytes)
  {
    if SkipValue(data, ptr, TYPE_ARRAY) == Skip(true, ptr + |bytes|) {
      SkippedIsValue(data, ptr, TYPE_ARRAY);
      hide WellFormed, Encode, SkipValue;
      var a := ValueAt(data, ptr, TYPE_ARRAY);
      assert a.Array? && WellFormed(a) && Encode(a) == bytes;
    }
    if a: Value :| a.Array? && WellFormed(a) && Encode(a) == bytes {
      SkipEncoded(data, ptr, a);
    }
  }

  /** A scalar at the cursor is read back. */
  lemma ScalarAt(data: seq<Byte>, ptr: nat, v: Value)
    requires v.Scalar? && WellFormed(v) && At(data, ptr, Encode(v))
    ensures Read(data, ptr, ScalarSize(v.kind)) == Some(FromLe(v.bytes)) && |Encode(v)| == ScalarSize(v.kind)
  {
  }

  lemma ValueParsedIff(data: seq<Byte>, ptr: nat, m: Meta, p: Pair)
    requires Formed(p) && At(data, ptr, Encode(p.value))
    ensures ParseValue(data, ptr, m, ActionOf(p), TypeOf(p.value))
            == Outcome(true, ptr + |Encode(p.value)|, Effect(p, m))
       <==> Regular(p)
  {
    Kinds(p);
    hide ActionOf, ParseValue, Effect, Regular, Formed, At, Encode;
    match ActionOf(p)
    case KeepText(_, _) => TextParsedIff(data, ptr, m, p);
    case Ignore => IgnoredParsedIff(data, ptr, m, p);
    case Tokens => ArrayValueParsedIff(data, ptr, m, p);
    case Scores => ArrayValueParsedIff(data, ptr, m, p);
    case TokenTypes => ArrayValueParsedIff(data, ptr, m, p);
    case _ => NumberParsedIff(data, ptr, m, p);
  }

  lemma TextParsedIff(data: seq<Byte>, ptr: nat, m: Meta, p: Pair)
    requires Formed(p) && At(data, ptr, Encode(p.value)) && p.value.Text?
    requires ActionOf(p).KeepText? && ActionOf(p).size > 0
    ensures ParseValue(data, ptr, m, ActionOf(p), TypeOf(p.value))
            == Outcome(true, ptr + |Encode(p.value)|, Effect(p, m))
       <==> Regular(p)
  {
    hide ActionOf, At, Encode, Read, SkipText, WellFormed;
    TextValue(data, ptr, p.value);
  }

  lemma IgnoredParsedIff(data: seq<Byte>, ptr: nat, m: Meta, p: Pair)
    requires Formed(p) && At(data, ptr, Encode(p.value)) && ActionOf(p).Ignore?
    ensures ParseValue(data, ptr, m, ActionOf(p), TypeOf(p.value))
            == Outcome(true, ptr + |Encode(p.value)|, Effect(p, m))
       <==> Regular(p)
  {
    hide ActionOf, At, Encode, SkipValue, WellFormed;
    SkipEncoded(data, ptr, p.value);
  }

  lemma ArrayValueParsedIff(data: seq<Byte>, ptr: nat, m: Meta, p: Pair)
    requires Formed(p) && At(data, ptr, Encode(p.value)) && p.value.Array?
    requires ActionOf(p).Tokens? || ActionOf(p).Scores? || ActionOf(p).TokenTypes?
    ensures ParseValue(data, ptr, m, ActionOf(p), TypeOf(p.value))
            == Outcome(true, ptr + |Encode(p.value)|, Effect(p, m))
       <==> Regular(p)
  {
    hide ActionOf, ArrayAction, At, Encode, Read, WellFormed, Effect, SpellsArray, SteppedOver, ShortText;
    ArrayAt(data, ptr, p.value);
    ArrayParsedIff(data, ptr, m, p);
  }

  lemma NumberParsedIff(data: seq<Byte>, ptr: nat, m: Meta, p: Pair)
    requires Formed(p) && At(data, ptr, Encode(p.value)) && p.value.Scalar?
    requires var k := ScalarSize(p.value.kind); var action := ActionOf(p);
      (k == 4 && (action.KeepU32? || action.KeepAlignment? || action.KeepF32?)) || (k == 8 && action.KeepF64?)
    ensures ParseValue(data, ptr, m, ActionOf(p), TypeOf(p.value))
            == Outcome(true, ptr + |Encode(p.value)|, Effect(p, m))
       <==> Regular(p)
  {
    hide ActionOf, SetAlignment, ValidDouble, SpellsArray, SteppedOver, ShortText, At, Read, FromLe;
    ScalarAt(data, ptr, p.value);
  }

  lemma ArrayParsedIff(data: seq<Byte>, ptr: nat, m: Meta, p: Pair)
    requires Formed(p) && At(data, ptr, Encode(p.value)) && p.value.Array?
    requires ActionOf(p).Tokens? || ActionOf(p).Scores? || ActionOf(p).TokenTypes?
    ensures ArrayAction(data, ptr + 12, m, ActionOf(p), p.value.elemType, |p.value.elems|)
            == Outcome(true, ptr + |Encode(p.value)|, Effect(p, m))
       <==> Regular(p)
  {
    hide Classify, ActionOf, ArrayAction, SpellsArray, SteppedOver, ShortText, At, Encode, WellFormed;
    match ActionOf(p)
    case Tokens => TokensParsedIff(data, ptr, m, p.value);
    case Scores => ScoresParsed(data, ptr, m, p.value);
    case TokenTypes => TokenTypesParsedIff(data, ptr, m, p.value);
  }

  lemma TextValue(data: seq<Byte>, ptr: nat, v: Value)
    requires v.Text? && WellFormed(v) && At(data, ptr, Encode(v))
    ensures SkipText(data, ptr) == Skip(true, ptr + |Encode(v)|) && |Encode(v)| == 8 + |v.chars|
    ensures ptr + 8 + |v.chars| <= |data| && data[ptr + 8..ptr + 8 + |v.chars|] == v.chars
  {
    TextAt(data, ptr, v.chars);
    TextFits(data, ptr, v.chars);
  }

  /** The constructor of a well-formed value follows from its type. */
  lemma Kinds(p: Pair)
    requires WellFormed(p.value)
    ensures ActionOf(p).KeepText? ==> p.value.Text? && ActionOf(p).size > 0
    ensures ActionOf(p).KeepU32? || ActionOf(p).KeepAlignment? || ActionOf(p).KeepF32? ==>
      p.value.Scalar? && ScalarSize(p.value.kind) == 4
    ensures ActionOf(p).KeepF64? ==> p.value.Scalar? && ScalarSize(p.value.kind) == 8
    ensures ActionOf(p).Tokens? || ActionOf(p).Scores? || ActionOf(p).TokenTypes? ==> p.value.Array?
  {
    ClassifyTypes(UpToNul(Clip(p.key, MAX_KEY_LEN)), TypeOf(p.value));
    KindOf(p.value);
    hide Classify, Clip, UpToNul, WellFormed;
  }

  lemma KindOf(v: Value)
    requires WellFormed(v)
    ensures TypeOf(v) == TYPE_STRING ==> v.Text?
    ensures TypeOf(v) == TYPE_ARRAY ==> v.Array?
    ensures TypeOf(v) in {TYPE_UINT32, TYPE_FLOAT32} ==> v.Scalar? && ScalarSize(v.kind) == 4
    ensures TypeOf(v) == TYPE_FLOAT64 ==> v.Scalar? && ScalarSize(v.kind) == 8
  {
  }

  /** A pair the format allows is parsed to its last byte, with exactly its effect on the description,
      if and only if it is regular. */
  lemma PairParsedIff(data: seq<Byte>, ptr: nat, m: Meta, p: Pair)
    requires Formed(p) && At(data, ptr, EncodePair(p))
    ensures ParsePair(data, ptr, m) == Outcome(true, ptr + |EncodePair(p)|, Effect(p, m)) <==> Regular(p)
  {
    hide Classify, ParseValue, Effect, Regular, At, EncodeText, Le, UpToNul, Read, SkipText, WellFormed;
    var t := TypeOf(p.value);
    HeadAt(data, ptr, p, t);
    ValueParsedIff(data, ptr + 8 + |p.key| + 4, m, p);
  }

  /** The key and the type in front of a pair's value. */
  lemma HeadAt(data: seq<Byte>, ptr: nat, p: Pair, t: nat)
    requires |p.key| <= MAX_STRING_LEN && WellFormed(p.value) && t == TypeOf(p.value) && At(data, ptr, EncodePair(p))
    ensures SkipText(data, ptr) == Skip(true, ptr + 8 + |p.key|) && data[ptr + 8..ptr + 8 + |p.key|] == p.key
    ensures Read(data, ptr + 8 + |p.key|, 4) == Some(t)
    ensures At(data, ptr + 8 + |p.key| + 4, Encode(p.value)) && |EncodePair(p)| == 8 + |p.key| + 4 + |Encode(p.value)|
  {
    hide At, SkipText, Read, TypeOf;
    Widths();
    AtSplit(data, ptr, EncodeText(p.key) + Le(t, 4), Encode(p.value));
    AtSplit(data, ptr, EncodeText(p.key), Le(t, 4));
    TextAt(data, ptr, p.key);
    SmallType(p.value);
    ReadEncoded(data, ptr + |EncodeText(p.key)|, t, 4);
  }

  lemma RegularIsFormed(p: Pair)
    requires Regular(p)
    ensures Formed(p)
  {
    hide Formed, ActionOf;
  }

  lemma SmallType(v: Value)
    requires WellFormed(v)
    ensures TypeOf(v) < 13
  {
  }

  /** Any list of regular pairs, whatever follows it, is parsed by exactly its encoded length, and
      the description holds the effect of each pair in order. */
  lemma {:induction false} MetadataParsed(data: seq<Byte>, ptr: nat, m: Meta, ps: seq<Pair>)
    requires At(data, ptr, EncodePairs(ps)) && forall i :: 0 <= i < |ps| ==> Regular(ps[i])
    ensures ParsePairs(data, ptr, m, |ps|) == Outcome(true, ptr + |EncodePairs(ps)|, Effects(ps, m))
    decreases |ps|
  {
    hide ParsePair, EncodePair, Effect, Regular;
    if ps != [] {
      AtSplit(data, ptr, EncodePair(ps[0]), EncodePairs(ps[1..]));
      RegularIsFormed(ps[0]);
      PairParsedIff(data, ptr, m, ps[0]);
      MetadataParsed(data, ptr + |EncodePair(ps[0])|, Effect(ps[0], m), ps[1..]);
    }
  }

  // ------------------------------------------------------------------ arbitrary input

  /** A score or token-type array that claims more elements than the file holds. */
  predicate Overruns(data: seq<Byte>, ptr: nat, action: Action) {
    && (action.Scores? || action.TokenTypes?)
    && var t, n := Read(data, ptr, 4), Read(data, ptr + 4, 8);
       && t.Some? && n.Some? && t.value == (if action.Scores? then TYPE_FLOAT32 else TYPE_INT32)
       && n.value <= MAX_VOCAB && ptr + 12 + 4 * n.value > |data|
  }

  /** On any bytes at all, a value leaves the cursor past the end of the file exactly when it is
      such an array: those two are stepped over without a bounds check. */
  lemma LeavesFileIff(data: seq<Byte>, ptr: nat, m: Meta, action: Action, t: nat)
    requires ptr <= |data|
    ensures ParseValue(data, ptr, m, action, t).ptr > |data| <==> Overruns(data, ptr, action)
  {
    hide SetAlignment, ValidDouble;
  }

  /** The same of a whole pair. */
  predicate PairOverruns(data: seq<Byte>, ptr: nat) {
    var r := SkipText(data, ptr);
    && r.ok
    && var t := Read(data, r.ptr, 4);
       && t.Some? && Overruns(data, r.ptr + 4, Classify(UpToNul(Clip(data[ptr + 8..r.ptr], MAX_KEY_LEN)), t.value))
  }

  lemma PairLeavesFileIff(data: seq<Byte>, ptr: nat, m: Meta)
    ensures ptr <= |data| ==> (ParsePair(data, ptr, m).ptr > |data| <==> PairOverruns(data, ptr))
    ensures PairOverruns(data, ptr) ==> ptr <= |data| && ParsePair(data, ptr, m).ok
    ensures ptr > |data| ==> ParsePair(data, ptr, m) == Fail(ptr, m)
  {
    hide Classify, UpToNul, Clip, ParseValue, Overruns, FromLe;
    var r := SkipText(data, ptr);
    if r.ok && Read(data, r.ptr, 4).Some? {
      var t := Read(data, r.ptr, 4).value;
      var action := Classify(UpToNul(Clip(data[ptr + 8..r.ptr], MAX_KEY_LEN)), t);
      LeavesFileIff(data, r.ptr + 4, m, action, t);
      if Overruns(data, r.ptr + 4, action) { OverrunSucceeds(data, r.ptr + 4, m, action, t); }
    }
  }

  lemma OverrunSucceeds(data: seq<Byte>, ptr: nat, m: Meta, action: Action, t: nat)
    requires Overruns(data, ptr, action)
    ensures ParseValue(data, ptr, m, action, t).ok
  {
  }

  /** The pair behind the first k ones, which are parsed, is such an array. */
  predicate OverrunsAfter(data: seq<Byte>, ptr: nat, m: Meta, k: nat) {
    var r := ParsePairs(data, ptr, m, k);
    r.ok && PairOverruns(data, r.ptr)
  }

  lemma OverrunsOneOn(data: seq<Byte>, ptr: nat, m: Meta, k: nat)
    ensures var r := ParsePair(data, ptr, m);
      OverrunsAfter(data, ptr, m, k) == if k == 0 then PairOverruns(data, ptr)
                                        else r.ok && OverrunsAfter(data, r.ptr, r.meta, k - 1)
  {
    hide ParsePair, PairOverruns;
  }

  /** Nothing is read from past the end of the file. */
  lemma OutsideStays(data: seq<Byte>, ptr: nat, m: Meta, n: nat)
    requires ptr > |data|
    ensures ParsePairs(data, ptr, m, n) == if n == 0 then Outcome(true, ptr, m) else Fail(ptr, m)
    ensures !OverrunsAfter(data, ptr, m, n)
  {
    PairLeavesFileIff(data, ptr, m);
    OverrunsOneOn(data, ptr, m, n);
    hide ParsePair, PairOverruns, OverrunsAfter;
  }

  /** On any bytes at all, the metadata end past the end of the file exactly when some pair is such an
      array; they are then reported as parsed if it was the last one announced, and as broken if not. */
  lemma {:induction false} MetadataLeaveFileIff(data: seq<Byte>, ptr: nat, m: Meta, n: nat)
    requires ptr <= |data|
    ensures ParsePairs(data, ptr, m, n).ptr > |data| <==> exists k: nat :: k < n && OverrunsAfter(data, ptr, m, k)
    ensures forall k: nat :: k < n && OverrunsAfter(data, ptr, m, k) ==>
              (ParsePairs(data, ptr, m, n).ok <==> k == n - 1)
    decreases n
  {
    hide ParsePair, PairOverruns, OverrunsAfter;
    if n > 0 {
      PairLeavesFileIff(data, ptr, m);
      var r := ParsePair(data, ptr, m);
      forall k: nat
        ensures OverrunsAfter(data, ptr, m, k) == if k == 0 then PairOverruns(data, ptr)
                                                  else r.ok && OverrunsAfter(data, r.ptr, r.meta, k - 1)
      {
        OverrunsOneOn(data, ptr, m, k);
      }
      if r.ok && r.ptr <= |data| {
        MetadataLeaveFileIff(data, r.ptr, r.meta, n - 1);
        if k: nat :| k < n - 1 && OverrunsAfter(data, r.ptr, r.meta, k) {
          assert OverrunsAfter(data, ptr, m, k + 1);
        }
      } else if r.ok {
        forall k: nat ensures !OverrunsAfter(data, r.ptr, r.meta, k) { OutsideStays(data, r.ptr, r.meta, k); }
        OutsideStays(data, r.ptr, r.meta, n - 1);
        assert OverrunsAfter(data, ptr, m, 0);
      }
    }
  }

  /** A double under one of the two known keys is accepted exactly when it is neither a NaN nor an
      infinity nor a denormal. */
  lemma DoubleAcceptedIff(data: seq<Byte>, ptr: nat, m: Meta, p: Pair)
    requires WellFormed(p.value) && ActionOf(p).KeepF64? && At(data, ptr, Encode(p.value))
    ensures p.value.Scalar?
    ensures ParseValue(data, ptr, m, ActionOf(p), TypeOf(p.value)).ok <==> ValidDouble(FromLe(p.value.bytes))
  {
    Kinds(p);
    ScalarAt(data, ptr, p.value);
    hide ActionOf, ValidDouble;
  }

  /** A rejected double ends the metadata: whatever pairs were announced, the cursor stops behind it and
      the description holds the pairs in front of it. */
  lemma {:induction false} BadDoubleStopsParsing(data: seq<Byte>, ptr: nat, m: Meta, ps: seq<Pair>, p: Pair, n: nat)
    requires forall i :: 0 <= i < |ps| ==> Regular(ps[i])
    requires |p.key| <= MAX_STRING_LEN && WellFormed(p.value) && ActionOf(p).KeepF64?
    requires p.value.Scalar? && !ValidDouble(FromLe(p.value.bytes))
    requires n > |ps| && At(data, ptr, EncodePairs(ps) + EncodePair(p))
    ensures ParsePairs(data, ptr, m, n) == Fail(ptr + |EncodePairs(ps)| + |EncodePair(p)|, Effects(ps, m))
    decreases |ps|
  {
    hide ParsePair, EncodePair, Effect, Regular, ActionOf, ValidDouble;
    if ps == [] {
      assert EncodePairs(ps) + EncodePair(p) == EncodePair(p);
      BadDoublePair(data, ptr, m, p);
    } else {
      assert EncodePairs(ps) + EncodePair(p) == EncodePair(ps[0]) + (EncodePairs(ps[1..]) + EncodePair(p));
      AtSplit(data, ptr, EncodePair(ps[0]), EncodePairs(ps[1..]) + EncodePair(p));
      RegularIsFormed(ps[0]);
      PairParsedIff(data, ptr, m, ps[0]);
      BadDoubleStopsParsing(data, ptr + |EncodePair(ps[0])|, Effect(ps[0], m), ps[1..], p, n - 1);
    }
  }

  lemma BadDoublePair(data: seq<Byte>, ptr: nat, m: Meta, p: Pair)
    requires |p.key| <= MAX_STRING_LEN && WellFormed(p.value) && ActionOf(p).KeepF64?
    requires p.value.Scalar? && !ValidDouble(FromLe(p.value.bytes)) && At(data, ptr, EncodePair(p))
    ensures ParsePair(data, ptr, m) == Fail(ptr + |EncodePair(p)|, m)
  {
    hide Classify, At, EncodeText, Le, UpToNul, Read, SkipText, ValidDouble;
    Kinds(p);
    HeadAt(data, ptr, p, TypeOf(p.value));
    ScalarAt(data, ptr + 8 + |p.key| + 4, p.value);
  }

  function FreqBaseKey(): seq<Byte> { Ascii("llama.rope.freq_base") }

  /** The smallest positive double as the rotary base of a llama model. */
  function TinyFreqBase(): Pair { Pair(FreqBaseKey(), Scalar(TYPE_FLOAT64, LowestBit(8))) }

  /** For instance: that pair is well-formed, and a file that holds it is refused. */
  lemma DenormalRejected(m: Meta)
    ensures WellFormed(TinyFreqBase().value)
    ensures ParsePairs(EncodePair(TinyFreqBase()), 0, m, 1) == Fail(|EncodePair(TinyFreqBase())|, m)
  {
    TinyIsDenormal();
    hide TinyFreqBase, ActionOf, ParsePair, EncodePair, ValidDouble, FromLe;
    var data := EncodePair(TinyFreqBase());
    assert EncodePairs([]) + data == data && data[0..|data|] == data;
    BadDoubleStopsParsing(data, 0, m, [], TinyFreqBase(), 1);
  }

  lemma TinyIsDenormal()
    ensures var p := TinyFreqBase();
      && |p.key| <= MAX_STRING_LEN && WellFormed(p.value) && ActionOf(p).KeepF64?
      && p.value.Scalar? && !ValidDouble(FromLe(p.value.bytes))
  {
    LlamaFreqBase();
    OneIsDenormal();
    hide FreqBaseKey, LowestBit, Classify, UpToNul, FromLe, Clip, ValidDouble;
  }

  lemma OneIsDenormal()
    ensures !ValidDouble(FromLe(LowestBit(8)))
  {
    LowestBitIsOne(8);
    hide FromLe, LowestBit;
  }

  /** The number 1 in n bytes. */
  function LowestBit(n: nat): (s: seq<Byte>)
    requires n > 0
    ensures |s| == n
  {
    [1] + seq(n - 1, _ => 0)
  }

  lemma LowestBitIsOne(n: nat)
    requires n > 0
    ensures FromLe(LowestBit(n)) == 1
  {
    ZeroBytes(LowestBit(n)[1..]);
  }

  lemma {:induction false} ZeroBytes(s: seq<Byte>)
    requires forall i :: 0 <= i < |s| ==> s[i] == 0
    ensures FromLe(s) == 0
  {
    if s != [] { ZeroBytes(s[1..]); }
  }

  lemma LlamaFreqBase()
    ensures var key := FreqBaseKey();
      |key| == 20 && UpToNul(Clip(key, MAX_KEY_LEN)) == key && Classify(key, TYPE_FLOAT64).KeepF64?
  {
    KeyBytes();
    LlamaSubkey();
    hide FreqBaseKey, Subkey, UpToNul, Ascii;
  }

  lemma KeyBytes()
    ensures |FreqBaseKey()| == 20 && UpToNul(FreqBaseKey()) == FreqBaseKey()
  {
    NoNul(FreqBaseKey());
  }

  lemma LlamaSubkey()
    ensures Subkey(FreqBaseKey()) == Some(Ascii("rope.freq_base"))
  {
    assert FreqBaseKey()[6..] == Ascii("rope.freq_base");
  }

  lemma {:induction false} NoNul(s: seq<Byte>)
    requires forall i :: 0 <= i < |s| ==> s[i] != 0
    ensures UpToNul(s) == s
  {
    if s != [] { NoNul(s[1..]); }
  }

  /** For instance: metadata of one pair that announces one score, and nothing behind the announcement.
      They are parsed with success, and the cursor ends four bytes past the end of the file. */
  lemma OverlongScores(m: Meta)
    ensures ParsePairs(ScoresFile(), 0, m, 1) == Outcome(true, |ScoresFile()| + 4, m)
  {
    ScoresHead();
    ScoresKeyIs();
    hide ScoresFile, ScoresKey, Classify, UpToNul, Clip, Read, SkipText, SkipLoosely;
    assert ParseValue(ScoresFile(), 33, m, Scores, TYPE_ARRAY) == Outcome(true, 49, m);
    assert ParsePair(ScoresFile(), 0, m) == Outcome(true, 49, m);
    assert ParsePairs(ScoresFile(), 49, m, 0) == Outcome(true, 49, m);
  }

  function ScoresFile(): seq<Byte> {
    EncodeText(ScoresKey()) + Le(TYPE_ARRAY, 4) + (Le(TYPE_FLOAT32, 4) + Le(1, 8))
  }

  lemma ScoresHead()
    ensures var file := ScoresFile();
      && |file| == 45 && SkipText(file, 0) == Skip(true, 29) && file[8..29] == ScoresKey()
      && Read(file, 29, 4) == Some(TYPE_ARRAY)
      && Read(file, 33, 4) == Some(TYPE_FLOAT32) && Read(file, 37, 8) == Some(1)
  {
    var head, tail := EncodeText(ScoresKey()) + Le(TYPE_ARRAY, 4), Le(TYPE_FLOAT32, 4) + Le(1, 8);
    var file := head + tail;
    NotTheTokens();
    Widths();
    hide ScoresKey, Read, SkipText, Le, At, FromLe;
    WholeAt(file);
    AtSplit(file, 0, head, tail);
    AtSplit(file, 0, EncodeText(ScoresKey()), Le(TYPE_ARRAY, 4));
    AtSplit(file, 33, Le(TYPE_FLOAT32, 4), Le(1, 8));
    TextAt(file, 0, ScoresKey());
    ReadEncoded(file, 29, TYPE_ARRAY, 4);
    ReadEncoded(file, 33, TYPE_FLOAT32, 4);
    ReadEncoded(file, 37, 1, 8);
  }

  lemma WholeAt(data: seq<Byte>)
    ensures At(data, 0, data)
  {
  }

  lemma ScoresKeyIs()
    ensures |ScoresKey()| == 21 && UpToNul(Clip(ScoresKey(), MAX_KEY_LEN)) == ScoresKey()
    ensures Classify(ScoresKey(), TYPE_ARRAY) == Scores
  {
    ScoresKeyBytes();
    NotTheTokens();
    NotAnArchitecture();
    assert ScoresKey() == Ascii("tokenizer.ggml.scores");
    hide ScoresKey, Ascii, UpToNul, Subkey;
  }

  lemma ScoresKeyBytes()
    ensures |ScoresKey()| == 21 && UpToNul(ScoresKey()) == ScoresKey()
  {
    NoNul(ScoresKey());
  }

  lemma NotTheTokens()
    ensures |ScoresKey()| == 21 && ScoresKey() != Ascii("tokenizer.ggml.tokens")
  {
    assert ScoresKey()[15] != Ascii("tokenizer.ggml.tokens")[15];
  }

  lemma NotAnArchitecture()
    ensures Subkey(ScoresKey()) == None
  {
    assert ScoresKey()[0] == 116;
  }

  /** A last vocabulary text above 1024 bytes is not stepped over: the cursor ends exactly that
      text's length short of the array's end. */
  lemma {:induction false} LongTokenStopsShort(data: seq<Byte>, ptr: nat, vs: seq<Value>)
    requires vs != [] && forall i :: 0 <= i < |vs| ==> TypeOf(vs[i]) == TYPE_STRING && WellFormed(vs[i])
    requires forall i :: 0 <= i < |vs| - 1 ==> ShortText(vs[i])
    requires !ShortText(vs[|vs| - 1]) && At(data, ptr, EncodeAll(vs))
    ensures ReadTokens(data, ptr, |vs|).0 == ptr + |EncodeAll(vs)| - |vs[|vs| - 1].chars|
    decreases |vs|
  {
    hide At, Read;
    IsText(vs[0]);
    AtSplit(data, ptr, Encode(vs[0]), EncodeAll(vs[1..]));
    TextAt(data, ptr, vs[0].chars);
    TextFits(data, ptr, vs[0].chars);
    if |vs| == 1 {
      assert EncodeAll(vs[1..]) == [] && ReadTokens(data, ptr + 8, 0).0 == ptr + 8;
    } else {
      LongTokenStopsShort(data, ptr + |Encode(vs[0])|, vs[1..]);
    }
  }

  /** For instance: a vocabulary of one text of 1025 bytes. It is well-formed, the parser reports
      success, stores no text and stops 1025 bytes short. */
  lemma LongVocabulary(m: Meta, chars: seq<Byte>)
    requires |chars| == 1025
    ensures var v := Array(TYPE_STRING, [Text(chars)]);
      && WellFormed(v) && |Encode(v)| == 1045
      && ParseValue(Encode(v), 0, m, Tokens, TYPE_ARRAY) == Outcome(true, 20, m.(vocab := [None]))
  {
    var v := Array(TYPE_STRING, [Text(chars)]);
    LoneText(chars);
    hide Encode, EncodeAll, EncodeText, WellFormed, Read, At, ReadTokens;
    WholeAt(Encode(v));
    ArrayAt(Encode(v), 0, v);
    LoneTextRefused(Encode(v), 12, chars);
    assert ArrayAction(Encode(v), 12, m, Tokens, TYPE_STRING, 1) == Outcome(true, 20, m.(vocab := [None]));
  }

  lemma LoneText(chars: seq<Byte>)
    requires |chars| <= MAX_STRING_LEN
    ensures var v := Array(TYPE_STRING, [Text(chars)]);
      WellFormed(v) && EncodeAll(v.elems) == EncodeText(chars) && |EncodeText(chars)| == 8 + |chars|
  {
    assert EncodeAll([Text(chars)][1..]) == [];
  }

  lemma LoneTextRefused(data: seq<Byte>, ptr: nat, chars: seq<Byte>)
    requires MAX_TOKEN < |chars| <= MAX_STRING_LEN && At(data, ptr, EncodeText(chars))
    ensures ReadTokens(data, ptr, 1) == (ptr + 8, [None])
  {
    TextAt(data, ptr, chars);
    hide At, Read;
    NoTexts(data, ptr + 8);
    var none: seq<Option<seq<Byte>>> := [None];
    assert none + [] == none;
  }

  // ------------------------------------------------------------------ the parser

  class Parser {
    const data: seq<Byte>
    const reader: Reader
    var meta: Meta

    ghost predicate Valid()
      reads this
    {
      reader.data == data
    }

    /** The description is reset to its defaults: RMS epsilon 1e-5 and RoPE base 10000. */
    constructor (file: seq<Byte>, start: nat)
      ensures Valid() && fresh(reader) && data == file && reader.ptr == start
      ensures meta == Meta(
        map[Ascii("attention.layer_norm_rms_epsilon") := F32(0x3727c5ac), Ascii("rope.freq_base") := F32(0x461c4000)],
        DEFAULT_ALIGN, [])
    {
      data := file;
      reader := new Reader(file, start);
      meta := Meta(
        map[Ascii("attention.layer_norm_rms_epsilon") := F32(0x3727c5ac), Ascii("rope.freq_base") := F32(0x461c4000)],
        DEFAULT_ALIGN, []);
    }

    method SkipAllLoosely(t: nat, n: nat)
      requires Valid()
      modifies reader
      ensures reader.ptr == SkipLoosely(data, old(reader.ptr), t, n)
    {
      var i := 0;
      while i < n
        invariant i <= n
        invariant SkipLoosely(data, reader.ptr, t, n - i) == SkipLoosely(data, old(reader.ptr), t, n)
      {
        var _ := reader.SkipOne(t);
        i := i + 1;
      }
    }

    /** The vocabulary loop. */
    method ReadVocabulary(n: nat) returns (texts: seq<Option<seq<Byte>>>)
      requires Valid()
      modifies reader
      ensures (reader.ptr, texts) == ReadTokens(data, old(reader.ptr), n)
    {
      ghost var whole := ReadTokens(data, reader.ptr, n);
      texts := [];
      var i := 0;
      while i < n
        invariant i <= n && texts == whole.1[..i]
        invariant ReadTokens(data, reader.ptr, n - i) == (whole.0, whole.1[i..])
      {
        ghost var rest := ReadTokens(data, reader.ptr, n - i).1;
        var len := reader.ReadInt(8);
        if len.None? {
          texts := texts + seq(n - i, _ => None);
          assert texts == whole.1[..i] + whole.1[i..] == whole.1;
          return;
        }
        var text := None;
        if len.value <= MAX_TOKEN && reader.ptr + len.value <= |data| {
          text := Some(data[reader.ptr..reader.ptr + len.value]);
          reader.ptr := reader.ptr + len.value;
        }
        assert rest[0] == text && rest[1..] == whole.1[i + 1..];
        texts := texts + [text];
        i := i + 1;
      }
      assert whole.1[..n] == whole.1;
    }

    /** The value of a pair. */
    method ParseOne(action: Action, t: nat) returns (ok: bool)
      requires Valid()
      modifies this`meta, reader
      ensures Valid() && Outcome(ok, reader.ptr, meta) == ParseValue(data, old(reader.ptr), old(meta), action, t)
    {
      hide Set, SetAlignment, ValidDouble;
      match action {
        case KeepText(field, size) =>
          var text := reader.ReadText();
          if text.None? || size == 0 { return false; }
          meta := Set(meta, field, Chars(Clip(text.value, size)));
          return true;
        case KeepU32(field) =>
          var n := reader.ReadInt(4);
          if n.None? { return false; }
          meta := Set(meta, field, U32(n.value));
          return true;
        case KeepAlignment =>
          var n := reader.ReadInt(4);
          if n.None? { return false; }
          meta := SetAlignment(meta, n.value);
          return true;
        case KeepF32(field) =>
          var n := reader.ReadInt(4);
          if n.None? { return false; }
          meta := Set(meta, field, F32(n.value));
          return true;
        case KeepF64(field) =>
          var n := reader.ReadInt(8);
          if n.None? { return false; }
          if !ValidDouble(n.value) { return false; }
          meta := Set(meta, field, Narrowed(n.value));
          return true;
        case Ignore =>
          ok := reader.SkipOne(t);
        case _ =>
          ok := ParseArray(action);
      }
    }

    /** The tokeniser's arrays. */
    method ParseArray(action: Action) returns (ok: bool)
      requires Valid() && (action.Tokens? || action.Scores? || action.TokenTypes?)
      modifies this`meta, reader
      ensures Valid()
      ensures Outcome(ok, reader.ptr, meta) == ParseValue(data, old(reader.ptr), old(meta), action, TYPE_ARRAY)
    {
      var t := reader.ReadInt(4);
      if t.None? { return false; }
      var n := reader.ReadInt(8);
      if n.None? { return false; }
      match action {
        case Tokens =>
          if t.value != TYPE_STRING {
            SkipAllLoosely(t.value, n.value);
            return true;
          }
          var texts := ReadVocabulary(if n.value > MAX_VOCAB then MAX_VOCAB else n.value);
          meta := meta.(vocab := texts);
        case Scores =>
          if t.value == TYPE_FLOAT32 && n.value <= MAX_VOCAB {
            reader.ptr := reader.ptr + 4 * n.value;
          } else {
            SkipAllLoosely(t.value, n.value);
          }
        case TokenTypes =>
          if t.value == TYPE_INT32 && n.value <= MAX_VOCAB {
            reader.ptr := reader.ptr + 4 * n.value;
          } else {
            ok := reader.SkipOne(TYPE_ARRAY);
            return;
          }
      }
      return true;
    }

    /** `gguf_parse_kv_pair`. */
    method ParseKvPair() returns (ok: bool)
      requires Valid()
      modifies this`meta, reader
      ensures Valid() && Outcome(ok, reader.ptr, meta) == ParsePair(data, old(reader.ptr), old(meta))
    {
      hide Classify, ParseValue;
      var key := reader.ReadText();
      if key.None? { return false; }
      var t := reader.ReadInt(4);
      if t.None? { return false; }
      ok := ParseOne(Classify(UpToNul(Clip(key.value, MAX_KEY_LEN)), t.value), t.value);
    }

    /** The loop of `gguf_parse_metadata`. */
    method ParseMetadata(n: nat) returns (ok: bool)
      requires Valid()
      modifies this`meta, reader
      ensures Valid() && Outcome(ok, reader.ptr, meta) == ParsePairs(data, old(reader.ptr), old(meta), n)
    {
      hide ParsePair;
      var i := 0;
      while i < n
        invariant i <= n && Valid()
        invariant ParsePairs(data, reader.ptr, meta, n - i) == ParsePairs(data, old(reader.ptr), old(meta), n)
      {
        ok := ParseKvPair();
        if !ok { return; }
        i := i + 1;
      }
      return true;
    }
  }
}
