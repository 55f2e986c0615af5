/**
 The keys the metadata parser knows, as a table: which of them a pair must have to change the
 model description, and what each of them changes.
 */
module GgufKeys {
  import opened Common
  import opened GgufFormat
  import opened GgufMetadata

  function Prefixes(): seq<string> { ["llama.", "phi.", "mistral.", "qwen.", "qwen2.", "gemma."] }

  /** The parameters every architecture has, read from unsigned integers of 32 bits. */
  function Counts(): seq<string> {
    ["context_length", "embedding_length", "block_count", "feed_forward_length", "attention.head_count",
     "attention.head_count_kv", "rope.dimension_count"]
  }

  /** And those read from floats or doubles. */
  function Reals(): seq<string> { ["attention.layer_norm_rms_epsilon", "rope.freq_base"] }

  /** What the C string functions see of a key. */
  function Seen(key: seq<Byte>): seq<Byte> { UpToNul(Clip(key, 256)) }

  /** The description with one field set and all others as they were. */
  function With(m: Meta, field: string, value: Field): Meta { m.(fields := m.fields[Ascii(field) := value]) }

  // ------------------------------------------------------------------ architecture parameters

  /** An integer parameter: whatever the architecture's prefix, the field it names is set to its value, and
      nothing else changes; values of other types are passed over. */
  lemma CountKept(i: nat, j: nat, key: seq<Byte>, v: Value, m: Meta)
    requires i < 6 && j < 7 && Seen(key) == Ascii(Prefixes()[i]) + Ascii(Counts()[j]) && WellFormed(v)
    ensures Effect(Pair(key, v), m) == if TypeOf(v) == 4 then With(m, Counts()[j], U32(FromLe(v.bytes))) else m
  {
    var sub := Ascii(Counts()[j]);
    CountAction(j, TypeOf(v));
    PrefixedKey(i, Seen(key), sub, TypeOf(v));
    KindOf(v);
    hide Prefixes, Counts, Ascii, Classify, ArchAction, UpToNul, Clip, ScalarSize;
  }

  lemma CountAction(j: nat, t: nat)
    requires j < 7
    ensures ArchAction(Ascii(Counts()[j]), t) == if t == 4 then KeepU32(Ascii(Counts()[j])) else Ignore
  {
    IsCountIs(j);
    CountNotReal(j);
    hide Ascii, IsCount, IsReal, Counts;
  }

  lemma IsCountIs(j: nat)
    requires j < 7
    ensures IsCount(Ascii(Counts()[j]))
  {
    hide Ascii;
  }

  lemma CountNotReal(j: nat)
    requires j < 7
    ensures !IsReal(Ascii(Counts()[j]))
  {
    assert |Ascii(Counts()[j])| == |Counts()[j]| && Ascii(Counts()[j])[0] == Counts()[j][0] as int % 256;
    assert |Ascii("attention.layer_norm_rms_epsilon")| == 32 && Ascii("rope.freq_base")[0] == 'r' as int;
    hide Ascii;
  }

  /** A real parameter, from a float's bits or from a double's to be narrowed. */
  lemma RealKept(i: nat, j: nat, key: seq<Byte>, v: Value, m: Meta)
    requires i < 6 && j < 2 && Seen(key) == Ascii(Prefixes()[i]) + Ascii(Reals()[j]) && WellFormed(v)
    ensures Effect(Pair(key, v), m) == if TypeOf(v) == 6 then With(m, Reals()[j], F32(FromLe(v.bytes)))
                                       else if TypeOf(v) == 12 then With(m, Reals()[j], Narrowed(FromLe(v.bytes)))
                                       else m
  {
    var sub := Ascii(Reals()[j]);
    RealAction(j, TypeOf(v));
    PrefixedKey(i, Seen(key), sub, TypeOf(v));
    KindOf(v);
    hide Prefixes, Reals, Ascii, Classify, ArchAction, UpToNul, Clip, ScalarSize;
  }

  lemma RealAction(j: nat, t: nat)
    requires j < 2
    ensures ArchAction(Ascii(Reals()[j]), t) == if t == 6 then KeepF32(Ascii(Reals()[j]))
                                                else if t == 12 then KeepF64(Ascii(Reals()[j])) else Ignore
  {
    RealNotCount(j);
    hide Ascii, IsCount, IsReal, Reals;
  }

  lemma RealNotCount(j: nat)
    requires j < 2
    ensures IsReal(Ascii(Reals()[j])) && !IsCount(Ascii(Reals()[j]))
  {
    if IsCount(Ascii(Reals()[j])) {
      var i := CountOf(Ascii(Reals()[j]));
      CountNotReal(i);
    }
    hide Ascii, IsCount;
  }

  lemma CountOf(sub: seq<Byte>) returns (j: nat)
    requires IsCount(sub)
    ensures j < 7 && sub == Ascii(Counts()[j])
  {
    hide Ascii;
    j := if sub == Ascii(Counts()[0]) then 0
      else if sub == Ascii(Counts()[1]) then 1
      else if sub == Ascii(Counts()[2]) then 2
      else if sub == Ascii(Counts()[3]) then 3
      else if sub == Ascii(Counts()[4]) then 4
      else if sub == Ascii(Counts()[5]) then 5
      else 6;
  }

  lemma PrefixedKey(i: nat, key: seq<Byte>, sub: seq<Byte>, t: nat)
    requires i < 6 && key == Ascii(Prefixes()[i]) + sub
    ensures Subkey(key) == Some(sub) && Classify(key, t) == ArchAction(sub, t)
  {
    PrefixFound(i, key, sub);
    PrefixLetters(i);
    if General(key) { GeneralLetters(key); }
    if OfTokenizer(key) { TokenizerLetter(key); }
    ByClass(key, t);
    hide Prefixes, Ascii, Subkey, ArchAction, Classify;
  }

  /** No prefix is the beginning of another. */
  lemma PrefixFound(i: nat, key: seq<Byte>, sub: seq<Byte>)
    requires i < 6 && key == Ascii(Prefixes()[i]) + sub
    ensures Subkey(key) == Some(sub)
    ensures |key| >= 4 && key[0] == Prefixes()[i][0] as int && key[2] == Prefixes()[i][2] as int
  {
    assert Prefixes()[i] == if i == 0 then "llama." else if i == 1 then "phi." else if i == 2 then "mistral."
                            else if i == 3 then "qwen." else if i == 4 then "qwen2." else "gemma.";
    LedBy(key, Prefixes()[i], sub);
    hide Ascii, StartsWith, Prefixes;
    if i != 0 { NotLlama(key); }
    if i > 1 { NotPhi(key); }
    if i > 2 { NotMistral(key); }
    if i > 3 { NotQwen(key, if i == 4 then 4 else 0); }
    if i > 4 { NotQwen2(key); }
  }

  lemma LedBy(key: seq<Byte>, prefix: string, sub: seq<Byte>)
    requires key == Ascii(prefix) + sub
    ensures StartsWith(key, Ascii(prefix)) && key[|prefix|..] == sub
    ensures forall k: nat :: k < |prefix| ==> key[k] == prefix[k] as int % 256
  {
    forall k: nat | k < |prefix| ensures key[k] == prefix[k] as int % 256 { assert key[k] == Ascii(prefix)[k]; }
  }

  lemma PrefixLetters(i: nat)
    requires i < 6
    ensures Prefixes()[i][0] != 't' && (Prefixes()[i][0] != 'g' || Prefixes()[i][2] != 'n')
  {
  }

  predicate General(key: seq<Byte>) {
    key == ArchitectureKey() || key == NameKey() || key == AlignmentKey() || IsFileNumber(key)
  }

  predicate OfTokenizer(key: seq<Byte>) {
    key == ModelKey() || IsTokenId(key) || key == TokensKey() || key == ScoresKey() || key == TokenTypesKey()
  }

  lemma GeneralLetters(key: seq<Byte>)
    requires General(key)
    ensures |key| > 2 && key[0] == 'g' as int && key[2] == 'n' as int
  {
  }

  lemma TokenizerLetter(key: seq<Byte>)
    requires OfTokenizer(key)
    ensures |key| > 2 && key[0] == 't' as int
  {
  }

  /** A key that is neither general nor the tokeniser's stands or falls with its prefix. */
  lemma ByClass(key: seq<Byte>, t: nat)
    requires !General(key) && !OfTokenizer(key)
    ensures Classify(key, t) == if Subkey(key).Some? then ArchAction(Subkey(key).value, t) else Ignore
  {
    hide Ascii, Subkey, ArchAction, IsFileNumber, IsTokenId;
    hide ArchitectureKey, NameKey, AlignmentKey, ModelKey, TokensKey, ScoresKey, TokenTypesKey;
  }

  // ------------------------------------------------------------------ general and tokeniser keys

  /** A string of at most `most` bytes; longer ones are cut. */
  function Cut(s: seq<Byte>, most: nat): seq<Byte> { if |s| <= most then s else s[..most] }

  lemma NoPrefix(key: seq<Byte>)
    requires General(key) || OfTokenizer(key)
    ensures Subkey(key) == None
  {
    if General(key) { GeneralLetters(key); } else { TokenizerLetter(key); }
    hide General, OfTokenizer;
    NotLlama(key);
    NotPhi(key);
    NotMistral(key);
    NotQwen(key, 0);
    NotQwen2(key);
    NotGemma(key);
    hide Ascii, StartsWith;
  }

  lemma NotLlama(key: seq<Byte>)
    requires |key| > 0 && key[0] != 'l' as int
    ensures !StartsWith(key, Ascii("llama."))
  {
    NotLed(key, "llama.", 0);
  }

  lemma NotPhi(key: seq<Byte>)
    requires |key| > 0 && key[0] != 'p' as int
    ensures !StartsWith(key, Ascii("phi."))
  {
    NotLed(key, "phi.", 0);
  }

  lemma NotMistral(key: seq<Byte>)
    requires |key| > 0 && key[0] != 'm' as int
    ensures !StartsWith(key, Ascii("mistral."))
  {
    NotLed(key, "mistral.", 0);
  }

  lemma NotQwen(key: seq<Byte>, k: nat)
    requires k < |key| && ((k == 0 && key[0] != 'q' as int) || (k == 4 && key[4] != '.' as int))
    ensures !StartsWith(key, Ascii("qwen."))
  {
    NotLed(key, "qwen.", k);
  }

  lemma NotQwen2(key: seq<Byte>)
    requires |key| > 0 && key[0] != 'q' as int
    ensures !StartsWith(key, Ascii("qwen2."))
  {
    NotLed(key, "qwen2.", 0);
  }

  lemma NotGemma(key: seq<Byte>)
    requires |key| > 2 && (key[0] != 'g' as int || key[2] != 'm' as int)
    ensures !StartsWith(key, Ascii("gemma."))
  {
    NotLed(key, "gemma.", if key[0] != 'g' as int then 0 else 2);
  }

  lemma NotLed(key: seq<Byte>, prefix: string, k: nat)
    requires k < |key| && k < |prefix| && key[k] != prefix[k] as int % 256
    ensures !StartsWith(key, Ascii(prefix))
  {
    assert Ascii(prefix)[k] == prefix[k] as int % 256;
  }

  /** The two texts are kept up to the size of their buffers, the two numbers as they are. */
  lemma GeneralKept(key: seq<Byte>, v: Value, m: Meta)
    requires WellFormed(v)
    ensures Seen(key) == Ascii("general.architecture") ==>
      Effect(Pair(key, v), m) == if TypeOf(v) == 8 then With(m, "general.architecture", Chars(Cut(v.chars, 63))) else m
    ensures Seen(key) == Ascii("general.name") ==>
      Effect(Pair(key, v), m) == if TypeOf(v) == 8 then With(m, "general.name", Chars(Cut(v.chars, 127))) else m
    ensures Seen(key) == Ascii("general.file_type") ==>
      Effect(Pair(key, v), m) == if TypeOf(v) == 4 then With(m, "general.file_type", U32(FromLe(v.bytes))) else m
    ensures Seen(key) == Ascii("general.quantization_version") ==>
      Effect(Pair(key, v), m)
      == if TypeOf(v) == 4 then With(m, "general.quantization_version", U32(FromLe(v.bytes))) else m
  {
    assert ArchitectureKey() == Ascii("general.architecture") && NameKey() == Ascii("general.name");
    FileNumbers();
    if General(Seen(key)) { GeneralEffect(key, v, m, Seen(key)); }
    hide Seen, Effect, ArchitectureKey, NameKey, IsFileNumber, Ascii;
  }

  lemma FileNumbers()
    ensures IsFileNumber(Ascii("general.file_type")) && IsFileNumber(Ascii("general.quantization_version"))
  {
    hide Ascii;
  }

  lemma GeneralEffect(key: seq<Byte>, v: Value, m: Meta, seen: seq<Byte>)
    requires WellFormed(v) && seen == Seen(key) && General(seen)
    ensures seen == ArchitectureKey() ==>
      Effect(Pair(key, v), m) == if TypeOf(v) == 8 then Set(m, seen, Chars(Cut(v.chars, 63))) else m
    ensures seen == NameKey() ==>
      Effect(Pair(key, v), m) == if TypeOf(v) == 8 then Set(m, seen, Chars(Cut(v.chars, 127))) else m
    ensures IsFileNumber(seen) ==>
      Effect(Pair(key, v), m) == if TypeOf(v) == 4 then Set(m, seen, U32(FromLe(v.bytes))) else m
  {
    var p := Pair(key, v);
    assert ActionOf(p) == Classify(seen, TypeOf(v));
    GeneralActions(seen, TypeOf(v));
    KindOf(v);
    hide General, Seen, ActionOf, Effect, ArchitectureKey, NameKey, IsFileNumber, Classify, AlignmentKey, ScalarSize;
    if seen == ArchitectureKey() && v.Text? { KeptText(p, m, seen, 63); }
    if seen == NameKey() && v.Text? { KeptText(p, m, seen, 127); }
    if IsFileNumber(seen) && TypeOf(v) == 4 { KeptNumber(p, m, seen); }
    if ActionOf(p).Ignore? { NothingKept(p, m); }
  }

  lemma KeptText(p: Pair, m: Meta, field: seq<Byte>, most: nat)
    requires ActionOf(p) == KeepText(field, most + 1) && p.value.Text?
    ensures Effect(p, m) == Set(m, field, Chars(Cut(p.value.chars, most)))
  {
    ClipIsCut(p.value.chars, most);
    hide ActionOf, Clip, Cut;
  }

  lemma KeptNumber(p: Pair, m: Meta, field: seq<Byte>)
    requires ActionOf(p) == KeepU32(field) && p.value.Scalar?
    ensures Effect(p, m) == Set(m, field, U32(FromLe(p.value.bytes)))
  {
    hide ActionOf, FromLe;
  }

  lemma NothingKept(p: Pair, m: Meta)
    requires ActionOf(p).Ignore? || ActionOf(p).Scores? || ActionOf(p).TokenTypes?
    ensures Effect(p, m) == m
  {
    hide ActionOf;
  }

  lemma ClipIsCut(s: seq<Byte>, most: nat)
    ensures Clip(s, most + 1) == Cut(s, most)
  {
  }

  lemma GeneralActions(key: seq<Byte>, t: nat)
    requires General(key)
    ensures key == ArchitectureKey() ==> Classify(key, t) == if t == 8 then KeepText(key, 64) else Ignore
    ensures key == NameKey() ==> Classify(key, t) == if t == 8 then KeepText(key, 128) else Ignore
    ensures key == AlignmentKey() ==> Classify(key, t) == if t == 4 then KeepAlignment else Ignore
    ensures IsFileNumber(key) ==> Classify(key, t) == if t == 4 then KeepU32(key) else Ignore
  {
    NoPrefix(key);
    GeneralDiffer(key);
    GeneralLetters(key);
    if OfTokenizer(key) { TokenizerLetter(key); }
    hide Ascii, Subkey, ArchAction, IsFileNumber, IsTokenId;
    hide ArchitectureKey, NameKey, AlignmentKey, ModelKey, TokensKey, ScoresKey, TokenTypesKey;
  }

  lemma GeneralDiffer(key: seq<Byte>)
    ensures ArchitectureKey() != NameKey() && (IsFileNumber(key) ==> key != AlignmentKey())
  {
    assert |ArchitectureKey()| == 20 && |NameKey()| == 12;
    assert |AlignmentKey()| == 17 && |Ascii("general.quantization_version")| == 28;
    assert AlignmentKey()[8] == 'a' as int && Ascii("general.file_type")[8] == 'f' as int;
    hide Ascii;
  }

  /** The alignment: a power of two up to 1 MB is kept, in the field and for the tensor data, and anything
      else counts as 32. */
  lemma AlignmentKept(key: seq<Byte>, v: Value, m: Meta)
    requires WellFormed(v) && Seen(key) == Ascii("general.alignment")
    ensures TypeOf(v) != 4 ==> Effect(Pair(key, v), m) == m
    ensures TypeOf(v) == 4 ==>
      var n := FromLe(v.bytes);
      var a := if IsAlignment(n) then n else 32;
      Effect(Pair(key, v), m) == With(m, "general.alignment", U32(a)).(alignment := a)
  {
    var p := Pair(key, v);
    assert AlignmentKey() == Ascii("general.alignment") && ActionOf(p) == Classify(Seen(key), TypeOf(v));
    GeneralActions(Seen(key), TypeOf(v));
    KindOf(v);
    hide General, Seen, ActionOf, AlignmentKey, ArchitectureKey, NameKey, IsFileNumber, Classify, ScalarSize, Ascii;
    if TypeOf(v) == 4 {
      GoodAlignmentIff(FromLe(v.bytes));
      KeptAlignment(p, m);
      hide GoodAlignment, IsAlignment;
    } else {
      NothingKept(p, m);
    }
  }

  lemma KeptAlignment(p: Pair, m: Meta)
    requires ActionOf(p) == KeepAlignment && p.value.Scalar?
    ensures Effect(p, m) == SetAlignment(m, FromLe(p.value.bytes))
  {
    hide ActionOf, FromLe, SetAlignment;
  }

  /** 2 to the k-th. */
  function Two(k: nat): (p: nat)
    ensures p > 0
  {
    if k == 0 then 1 else 2 * Two(k - 1)
  }

  ghost predicate IsAlignment(n: nat) { exists k: nat :: k <= 20 && n == Two(k) }

  lemma GoodAlignmentIff(n: nat)
    ensures GoodAlignment(n) <==> IsAlignment(n)
  {
    TwentyBits();
    if GoodAlignment(n) {
      var k := Exponent(n, 20);
    } else if IsAlignment(n) {
      var k: nat :| k <= 20 && n == Two(k);
      TwoIsPower(k, 20);
    }
  }

  lemma TwentyBits()
    ensures Two(20) == 1024 * 1024
  {
    assert Two(4) == 16;
    assert Two(8) == 256;
    assert Two(12) == 4096;
    assert Two(16) == 65536;
  }

  /** A power of two is 2 to some k-th. */
  lemma {:induction false} Exponent(n: nat, most: nat) returns (k: nat)
    requires PowerOfTwo(n) && n <= Two(most)
    ensures k <= most && n == Two(k)
  {
    k := 0;
    if n > 1 {
      k := Exponent(n / 2, most - 1);
      k := k + 1;
    }
  }

  lemma {:induction false} TwoIsPower(k: nat, most: nat)
    requires k <= most
    ensures PowerOfTwo(Two(k)) && Two(k) <= Two(most)
  {
    if k > 0 {
      TwoIsPower(k - 1, most - 1);
    } else if most > 0 {
      TwoIsPower(0, most - 1);
    }
  }

  /** The test of the source, on its 32-bit words, picks out the same numbers. */
  lemma AlignmentTest(x: bv32)
    ensures x != 0 && x & (x - 1) == 0 && x <= 1048576 <==>
      x in {1, 2, 4, 8, 16, 32, 64, 128, 256, 512, 1024, 2048, 4096, 8192, 16384, 32768, 65536, 131072, 262144, 524288,
            1048576}
  {
  }

  /** The tokeniser's name, its three token ids, its texts; scores and token types leave nothing. */
  lemma TokenizerKept(key: seq<Byte>, v: Value, m: Meta)
    requires WellFormed(v)
    ensures Seen(key) == Ascii("tokenizer.ggml.model") ==>
      Effect(Pair(key, v), m) == if TypeOf(v) == 8 then With(m, "tokenizer.ggml.model", Chars(Cut(v.chars, 63))) else m
    ensures Seen(key) == Ascii("tokenizer.ggml.tokens") ==>
      Effect(Pair(key, v), m) == if TypeOf(v) == 9 && v.elemType == 8 then m.(vocab := TextsOf(v.elems)) else m
    ensures Seen(key) == Ascii("tokenizer.ggml.scores") || Seen(key) == Ascii("tokenizer.ggml.token_type") ==>
      Effect(Pair(key, v), m) == m
  {
    assert ModelKey() == Ascii("tokenizer.ggml.model") && TokensKey() == Ascii("tokenizer.ggml.tokens");
    assert ScoresKey() == Ascii("tokenizer.ggml.scores") && TokenTypesKey() == Ascii("tokenizer.ggml.token_type");
    if OfTokenizer(Seen(key)) { TokenizerEffect(key, v, m, Seen(key)); }
    hide Seen, Effect, ModelKey, IsTokenId, TokensKey, ScoresKey, TokenTypesKey, Ascii;
  }

  lemma TokenIdKept(j: nat, key: seq<Byte>, v: Value, m: Meta)
    requires j < 3 && Seen(key) == Ascii(TokenIds()[j]) && WellFormed(v)
    ensures Effect(Pair(key, v), m) == if TypeOf(v) == 4 then With(m, TokenIds()[j], U32(FromLe(v.bytes))) else m
  {
    TokenIdIs(j);
    TokenizerEffect(key, v, m, Seen(key));
    hide Seen, Effect, ModelKey, IsTokenId, TokensKey, ScoresKey, TokenTypesKey, Ascii;
  }

  function TokenIds(): seq<string> {
    ["tokenizer.ggml.bos_token_id", "tokenizer.ggml.eos_token_id", "tokenizer.ggml.padding_token_id"]
  }

  lemma TokenIdIs(j: nat)
    requires j < 3
    ensures IsTokenId(Ascii(TokenIds()[j]))
  {
    hide Ascii;
  }

  /** The texts of a vocabulary array, each in its place. */
  lemma {:induction false} TextsOfIs(vs: seq<Value>)
    requires forall i :: 0 <= i < |vs| ==> TypeOf(vs[i]) == 8 && WellFormed(vs[i])
    ensures |TextsOf(vs)| == |vs| && forall i :: 0 <= i < |vs| ==> vs[i].Text? && TextsOf(vs)[i] == Some(vs[i].chars)
  {
    if vs != [] { TextsOfIs(vs[1..]); }
  }

  lemma TokenizerEffect(key: seq<Byte>, v: Value, m: Meta, seen: seq<Byte>)
    requires WellFormed(v) && seen == Seen(key) && OfTokenizer(seen)
    ensures seen == ModelKey() ==>
      Effect(Pair(key, v), m) == if TypeOf(v) == 8 then Set(m, seen, Chars(Cut(v.chars, 63))) else m
    ensures IsTokenId(seen) ==>
      Effect(Pair(key, v), m) == if TypeOf(v) == 4 then Set(m, seen, U32(FromLe(v.bytes))) else m
    ensures seen == TokensKey() ==>
      Effect(Pair(key, v), m) == if TypeOf(v) == 9 && v.elemType == 8 then m.(vocab := TextsOf(v.elems)) else m
    ensures seen == ScoresKey() || seen == TokenTypesKey() ==> Effect(Pair(key, v), m) == m
  {
    var p := Pair(key, v);
    assert ActionOf(p) == Classify(seen, TypeOf(v));
    TokenizerActions(seen, TypeOf(v));
    KindOf(v);
    hide OfTokenizer, Seen, ActionOf, Effect, Classify, ScalarSize, TextsOf;
    hide ModelKey, IsTokenId, TokensKey, ScoresKey, TokenTypesKey;
    if seen == ModelKey() && v.Text? { KeptText(p, m, seen, 63); }
    if IsTokenId(seen) && TypeOf(v) == 4 { KeptNumber(p, m, seen); }
    if seen == TokensKey() && v.Array? { KeptTexts(p, m); }
    if ActionOf(p).Ignore? || ActionOf(p).Scores? || ActionOf(p).TokenTypes? { NothingKept(p, m); }
  }

  lemma KeptTexts(p: Pair, m: Meta)
    requires ActionOf(p) == Tokens && p.value.Array?
    ensures Effect(p, m) == if p.value.elemType == 8 then m.(vocab := TextsOf(p.value.elems)) else m
  {
    hide ActionOf, TextsOf;
  }

  lemma TokenizerActions(key: seq<Byte>, t: nat)
    requires OfTokenizer(key)
    ensures key == ModelKey() ==> Classify(key, t) == if t == 8 then KeepText(key, 64) else Ignore
    ensures IsTokenId(key) ==> Classify(key, t) == if t == 4 then KeepU32(key) else Ignore
    ensures key == TokensKey() ==> Classify(key, t) == if t == 9 then Tokens else Ignore
    ensures key == ScoresKey() ==> Classify(key, t) == if t == 9 then Scores else Ignore
    ensures key == TokenTypesKey() ==> Classify(key, t) == if t == 9 then TokenTypes else Ignore
  {
    NoPrefix(key);
    TokenizerDiffer(key);
    TokenizerLetter(key);
    if General(key) { GeneralLetters(key); }
    hide Ascii, Subkey, ArchAction, IsFileNumber, IsTokenId;
    hide ArchitectureKey, NameKey, AlignmentKey, ModelKey, TokensKey, ScoresKey, TokenTypesKey;
  }

  lemma TokenizerDiffer(key: seq<Byte>)
    ensures IsTokenId(key) ==> key !in [ModelKey(), TokensKey(), ScoresKey(), TokenTypesKey()]
    ensures TokensKey() != ScoresKey() && TokensKey() != TokenTypesKey() && ScoresKey() != TokenTypesKey()
  {
    assert |ModelKey()| == 20 && |TokensKey()| == 21 && |ScoresKey()| == 21 && |TokenTypesKey()| == 25;
    assert |Ascii("tokenizer.ggml.bos_token_id")| == 27 && |Ascii("tokenizer.ggml.padding_token_id")| == 31;
    assert TokensKey()[15] == 't' as int && ScoresKey()[15] == 's' as int;
    hide Ascii;
  }

  // ------------------------------------------------------------------ all other keys

  ghost predicate IsParameter(seen: seq<Byte>, names: seq<string>) {
    exists i: nat, j: nat :: i < 6 && j < |names| && seen == Ascii(Prefixes()[i]) + Ascii(names[j])
  }

  /** The keys of the tables above, each with the types its value is kept from. */
  ghost predicate Listed(seen: seq<Byte>, t: nat) {
    || (t == 8 && seen in [Ascii("general.architecture"), Ascii("general.name"), Ascii("tokenizer.ggml.model")])
    || (t == 4 && seen in [Ascii("general.alignment"), Ascii("general.file_type"),
                           Ascii("general.quantization_version")])
    || (t == 4 && exists j: nat :: j < 3 && seen == Ascii(TokenIds()[j]))
    || (t == 4 && IsParameter(seen, Counts()))
    || (t in {6, 12} && IsParameter(seen, Reals()))
    || (t == 9 && seen == Ascii("tokenizer.ggml.tokens"))
  }

  /** Any other key, and a listed key with a value of another type, leaves the description as it is. */
  lemma UnlistedIgnored(p: Pair, m: Meta)
    requires WellFormed(p.value) && !Listed(Seen(p.key), TypeOf(p.value))
    ensures Effect(p, m) == m
  {
    var seen, t := Seen(p.key), TypeOf(p.value);
    if General(seen) {
      GeneralActions(seen, t);
      GeneralListed(seen, t);
    } else if OfTokenizer(seen) {
      TokenizerActions(seen, t);
      TokenizerListed(seen, t);
    } else {
      ByClass(seen, t);
      if Subkey(seen).Some? { ParameterListed(seen, Subkey(seen).value, t); }
    }
    assert ActionOf(p) == Classify(seen, t);
    hide Ascii, Seen, Listed, Classify, ActionOf, General, OfTokenizer, IsFileNumber, IsTokenId, Effect;
    hide ArchitectureKey, NameKey, AlignmentKey, ModelKey, TokensKey, ScoresKey, TokenTypesKey;
    NothingKept(p, m);
  }

  lemma GeneralListed(seen: seq<Byte>, t: nat)
    requires General(seen)
    ensures t == 8 && (seen == ArchitectureKey() || seen == NameKey()) ==> Listed(seen, t)
    ensures t == 4 && (seen == AlignmentKey() || IsFileNumber(seen)) ==> Listed(seen, t)
  {
    hide Ascii, IsParameter;
  }

  lemma TokenizerListed(seen: seq<Byte>, t: nat)
    requires OfTokenizer(seen)
    ensures t == 8 && seen == ModelKey() ==> Listed(seen, t)
    ensures t == 4 && IsTokenId(seen) ==> Listed(seen, t)
    ensures t == 9 && seen == TokensKey() ==> Listed(seen, t)
  {
    hide Ascii, IsParameter;
    if IsTokenId(seen) {
      assert seen == Ascii(TokenIds()[0]) || seen == Ascii(TokenIds()[1]) || seen == Ascii(TokenIds()[2]);
    }
  }

  lemma ParameterListed(seen: seq<Byte>, sub: seq<Byte>, t: nat)
    requires Subkey(seen) == Some(sub)
    ensures ArchAction(sub, t).Ignore? || Listed(seen, t)
  {
    var i := PrefixOf(seen, sub);
    hide Ascii, Subkey, IsCount, IsReal, Prefixes, Counts, Reals;
    if IsCount(sub) {
      var j := CountOf(sub);
      CountsAre();
      assert IsParameter(seen, Counts());
    }
    if IsReal(sub) {
      var j := RealOf(sub);
      CountsAre();
      assert IsParameter(seen, Reals());
    }
  }

  lemma CountsAre()
    ensures |Counts()| == 7 && |Reals()| == 2
  {
  }

  lemma RealOf(sub: seq<Byte>) returns (j: nat)
    requires IsReal(sub)
    ensures j < 2 && sub == Ascii(Reals()[j])
  {
    hide Ascii;
    j := if sub == Ascii(Reals()[0]) then 0 else 1;
  }

  lemma PrefixOf(seen: seq<Byte>, sub: seq<Byte>) returns (i: nat)
    requires Subkey(seen) == Some(sub)
    ensures i < 6 && seen == Ascii(Prefixes()[i]) + sub
  {
    i := if StartsWith(seen, Ascii("llama.")) then 0
      else if StartsWith(seen, Ascii("phi.")) then 1
      else if StartsWith(seen, Ascii("mistral.")) then 2
      else if StartsWith(seen, Ascii("qwen.")) then 3
      else if StartsWith(seen, Ascii("qwen2.")) then 4
      else 5;
    assert seen == Ascii(Prefixes()[i]) + sub;
  }

  // ------------------------------------------------------------------ in the file

  /** A key of less than 256 bytes, none of them zero, is seen as it is. */
  lemma SeenWhole(key: seq<Byte>)
    requires |key| < 256 && forall k :: 0 <= k < |key| ==> key[k] != 0
    ensures Seen(key) == key
  {
    NoNul(key);
  }

  /** Integers, floats and texts in a file are read into the description as the tables say, and the cursor
      goes to the end of the pair. */
  lemma PairRead(data: seq<Byte>, ptr: nat, m: Meta, p: Pair)
    requires Formed(p) && At(data, ptr, EncodePair(p)) && TypeOf(p.value) in {4, 6, 8}
    ensures ParsePair(data, ptr, m) == Outcome(true, ptr + |EncodePair(p)|, Effect(p, m))
  {
    ClassifyTypes(Seen(p.key), TypeOf(p.value));
    assert ActionOf(p) == Classify(Seen(p.key), TypeOf(p.value));
    assert Regular(p) by { hide ActionOf, Classify, Seen, SpellsArray, SteppedOver, ShortText, ValidDouble; }
    PairParsedIff(data, ptr, m, p);
    hide Effect, Regular, Formed, ActionOf, Classify, Seen;
  }

  /** So an architecture's integer ends in the field its key names, wherever the pair stands. */
  lemma CountRead(data: seq<Byte>, ptr: nat, m: Meta, i: nat, j: nat, p: Pair)
    requires Formed(p) && At(data, ptr, EncodePair(p)) && TypeOf(p.value) == 4
    requires i < 6 && j < 7 && Seen(p.key) == Ascii(Prefixes()[i]) + Ascii(Counts()[j])
    ensures p.value.Scalar?
    ensures ParsePair(data, ptr, m)
         == Outcome(true, ptr + |EncodePair(p)|, With(m, Counts()[j], U32(FromLe(p.value.bytes))))
  {
    KindOf(p.value);
    PairRead(data, ptr, m, p);
    CountKept(i, j, p.key, p.value, m);
    hide Effect, Prefixes, Counts, Ascii, Seen, ScalarSize;
  }

  /** Integers are little-endian. */
  lemma FourBytes(s: seq<Byte>)
    requires |s| == 4
    ensures FromLe(s) == (s[0] as int) + 0x100 * (s[1] as int) + 0x1_0000 * (s[2] as int) + 0x100_0000 * (s[3] as int)
  {
    NextByte(s);
    NextByte(s[1..]);
    NextByte(s[2..]);
    NextByte(s[3..]);
    assert s[1..][1..] == s[2..] && s[2..][1..] == s[3..] && s[3..][1..] == [];
    assert FromLe([]) == 0;
    hide FromLe;
  }

  lemma NextByte(s: seq<Byte>)
    requires s != []
    ensures FromLe(s) == (s[0] as int) + 0x100 * FromLe(s[1..])
  {
  }

  lemma EightBytes(s: seq<Byte>)
    requires |s| == 8
    ensures FromLe(s) == FromLe(s[..4]) + 0x1_0000_0000 * FromLe(s[4..])
  {
    FourBytes(s[..4]);
    NextByte(s);
    NextByte(s[1..]);
    NextByte(s[2..]);
    NextByte(s[3..]);
    assert s[1..][1..] == s[2..] && s[2..][1..] == s[3..] && s[3..][1..] == s[4..];
    hide FromLe;
  }

  /** The sizes of the scalar types: bytes and booleans, 16-bit integers, 32-bit integers and floats,
      64-bit integers and doubles; strings and arrays have none of their own. */
  lemma ScalarSizes(t: nat)
    ensures ScalarSize(0) == ScalarSize(1) == ScalarSize(7) == 1 && ScalarSize(2) == ScalarSize(3) == 2
    ensures ScalarSize(4) == ScalarSize(5) == ScalarSize(6) == 4
    ensures ScalarSize(10) == ScalarSize(11) == ScalarSize(12) == 8
    ensures t in {8, 9} || t > 12 ==> ScalarSize(t) == 0
  {
  }

  /** The 64 bits of a double: a sign bit, 11 exponent bits, 52 mantissa bits. */
  function DoubleBits(sign: nat, exponent: nat, mantissa: nat): (bits: nat)
    requires sign < 2 && exponent < 2048 && mantissa < 0x10_0000_0000_0000
    ensures bits < 0x1_0000_0000_0000_0000
  {
    sign * 0x8000_0000_0000_0000 + exponent * 0x10_0000_0000_0000 + mantissa
  }

  /** Accepted are the normal numbers, whose exponent is neither 0 nor 2047, and the two zeros. */
  lemma DoubleAccepted(sign: nat, exponent: nat, mantissa: nat)
    requires sign < 2 && exponent < 2048 && mantissa < 0x10_0000_0000_0000
    ensures ValidDouble(DoubleBits(sign, exponent, mantissa))
       <==> 0 < exponent < 2047 || (exponent == 0 && mantissa == 0)
  {
    HighAndLow(2048 * sign + exponent, mantissa);
    assert DoubleBits(sign, exponent, mantissa) == 0x10_0000_0000_0000 * (2048 * sign + exponent) + mantissa;
    assert (2048 * sign + exponent) % 2048 == exponent;
    ValidIff(DoubleBits(sign, exponent, mantissa), 2048 * sign + exponent, mantissa);
    hide DoubleBits, ValidDouble;
  }

  lemma HighAndLow(high: nat, low: nat)
    requires low < 0x10_0000_0000_0000
    ensures (0x10_0000_0000_0000 * high + low) / 0x10_0000_0000_0000 == high
    ensures (0x10_0000_0000_0000 * high + low) % 0x10_0000_0000_0000 == low
  {
  }

  lemma ValidIff(bits: nat, high: nat, low: nat)
    requires bits / 0x10_0000_0000_0000 == high && bits % 0x10_0000_0000_0000 == low
    ensures ValidDouble(bits) <==> high % 2048 != 2047 && (high % 2048 == 0 ==> low == 0)
  {
  }
}
