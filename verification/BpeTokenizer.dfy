/**
 Encoding and decoding: the greedy longest match over the preprocessed text, the decoder, and
 when the second undoes the first.
 */
module BpeTokenizer {
  import opened Common
  import opened BpeVocabulary
  import opened BpeText

  /** The fields of the tokeniser that are set once. `size` is the number of ids. */
  datatype Settings = Settings(style: Style, bos: nat, eos: nat, unk: nat, size: nat)

  // ------------------------------------------------------------------ greedy matching

  /** The longest of the lengths 1 .. len whose text at `pos` is in the vocabulary, or 0. */
  function BestLen(log: seq<Record>, text: seq<Byte>, pos: nat, len: nat): (best: nat)
    requires pos + len <= |text|
    ensures best <= len
  {
    if len == 0 then 0 else if Find(log, text[pos..pos + len]) >= 0 then len else BestLen(log, text, pos, len - 1)
  }

  lemma {:induction false} BestLenIsBest(log: seq<Record>, text: seq<Byte>, pos: nat, len: nat)
    requires pos + len <= |text|
    ensures var best := BestLen(log, text, pos, len);
      && (best > 0 ==> Find(log, text[pos..pos + best]) >= 0)
      && forall e :: pos + best < e <= pos + len ==> Find(log, text[pos..e]) < 0
  {
    hide Find;
    if len > 0 { BestLenIsBest(log, text, pos, len - 1); }
  }

  /** The longest match at `pos`: no text that ends behind it within the limit is in the vocabulary, and
      0 says that none at all is. */
  function Longest(log: seq<Record>, text: seq<Byte>, pos: nat): (best: nat)
    requires pos <= |text|
    ensures pos + best <= |text| && best <= MAX_TOKEN_LEN
    ensures best > 0 ==> Find(log, text[pos..pos + best]) >= 0
    ensures forall e :: pos + best < e <= |text| && e <= pos + MAX_TOKEN_LEN ==> Find(log, text[pos..e]) < 0
  {
    var most := if |text| - pos < MAX_TOKEN_LEN then |text| - pos else MAX_TOKEN_LEN;
    BestLenIsBest(log, text, pos, most);
    BestLen(log, text, pos, most)
  }

  function HexDigit(n: nat): Byte
    requires n < 16
  {
    if n < 10 then 48 + n else 55 + n
  }

  /** The spelling of a byte token, `<0xXX>`. */
  function ByteToken(b: Byte): (t: seq<Byte>)
    ensures CString(t)
  {
    [60, 48, 120, HexDigit(b / 16), HexDigit(b % 16), 62]
  }

  /** The digits are the ones of the source's table, and the high one comes first. */
  lemma ByteTokenSpelling(hi: nat, lo: nat)
    requires hi < 16 && lo < 16
    ensures ByteToken(16 * hi + lo) == ['<' as int, '0' as int, 'x' as int, HexDigit(hi), HexDigit(lo), '>' as int]
    ensures HexDigit(hi) == "0123456789ABCDEF"[hi] as int && HexDigit(lo) == "0123456789ABCDEF"[lo] as int
  {
    HexDigitIs(hi);
    HexDigitIs(lo);
  }

  lemma HexDigitIs(n: nat)
    requires n < 16
    ensures HexDigit(n) == "0123456789ABCDEF"[n] as int
  {
  }

  /** The next token and the bytes it consumes. */
  function Next(log: seq<Record>, unk: nat, text: seq<Byte>, pos: nat): (r: (int, nat))
    requires pos < |text|
    ensures 0 < r.1 <= |text| - pos
  {
    var best := Longest(log, text, pos);
    if best > 0 then (Find(log, text[pos..pos + best]), best)
    else
      var id := Find(log, ByteToken(text[pos]));
      (if id >= 0 then id else unk, 1)
  }

  function Greedy(log: seq<Record>, unk: nat, text: seq<Byte>, pos: nat, max: int): seq<int>
    requires pos <= |text|
    decreases |text| - pos
  {
    if pos == |text| || max <= 0 then []
    else
      var (id, len) := Next(log, unk, text, pos);
      [id] + Greedy(log, unk, text, pos + len, max - 1)
  }

  /** `id` stands for the bytes from `from` to `to`: they are the longest text at `from` that is in the
      vocabulary, or one byte where no text is, given as its byte token or else as unknown. */
  ghost predicate Stands(log: seq<Record>, unk: nat, text: seq<Byte>, from: nat, to: nat, id: int) {
    && from < to <= |text|
    && (forall e :: to < e <= |text| && e <= from + 64 ==> Find(log, text[from..e]) < 0)
    && (if Find(log, text[from..to]) >= 0 && to <= from + 64 then id == Find(log, text[from..to])
        else
          var byteId := Find(log, ByteToken(text[from]));
          to == from + 1 && id == if byteId >= 0 then byteId else unk)
  }

  /** The tokens stand for consecutive pieces of the text from `pos` on, and end with the text or with
      their number. */
  ghost predicate Segments(log: seq<Record>, unk: nat, text: seq<Byte>, pos: nat, max: int, cuts: seq<nat>,
      tokens: seq<int>)
  {
    var most := if max < 0 then 0 else max;
    && |cuts| == |tokens| + 1 && cuts[0] == pos && |tokens| <= most
    && EachStands(log, unk, text, cuts, tokens)
    && (cuts[|tokens|] == |text| || |tokens| == most)
  }

  ghost predicate IsSegmentation(log: seq<Record>, unk: nat, text: seq<Byte>, max: int, tokens: seq<int>) {
    exists cuts :: Segments(log, unk, text, 0, max, cuts, tokens)
  }

  ghost predicate EachStands(log: seq<Record>, unk: nat, text: seq<Byte>, cuts: seq<nat>, tokens: seq<int>)
    requires |cuts| == |tokens| + 1
  {
    forall i :: 0 <= i < |tokens| ==> Stands(log, unk, text, cuts[i], cuts[i + 1], tokens[i])
  }

  /** The tokens of a text. */
  function Body(log: seq<Record>, s: Settings, text: seq<Byte>, max: int): seq<int> {
    Greedy(log, s.unk, Marked(s.style, text), 0, max)
  }

  /** The optional start token and the text's tokens; one place is always kept free. */
  function EncodedBody(log: seq<Record>, s: Settings, text: seq<Byte>, max: int, addBos: bool): seq<int> {
    if addBos then [s.bos as int] + Body(log, s, text, max - 2) else Body(log, s, text, max - 1)
  }

  /** All tokens of an encoding. */
  function Encoded(log: seq<Record>, s: Settings, text: seq<Byte>, max: int, addBos: bool, addEos: bool): seq<int> {
    var body := EncodedBody(log, s, text, max, addBos);
    if addEos && |body| < max then body + [s.eos as int] else body
  }

  /** The tokens between the start and the end token, each of which may be left out. */
  function Framed(s: Settings, tokens: seq<int>, bos: bool, eos: bool): (r: seq<int>)
    ensures |r| == |tokens| + (if bos then 1 else 0) + (if eos then 1 else 0)
    ensures bos ==> r[0] == s.bos && r[1..|tokens| + 1] == tokens
    ensures !bos ==> r[..|tokens|] == tokens
    ensures eos ==> r[|r| - 1] == s.eos
  {
    (if bos then [s.bos as int] else []) + tokens + if eos then [s.eos as int] else []
  }

  /** `out` is the start token if asked for, the tokens of the segments of the marked text, and the end
      token if asked for; one place is kept free for it, unless the start token took the only one. */
  ghost predicate EncodesTo(log: seq<Record>, s: Settings, text: seq<Byte>, max: int, addBos: bool, addEos: bool,
      out: seq<int>)
  {
    var marked, most := Marked(s.style, text), max - if addBos then 2 else 1;
    exists tokens :: IsSegmentation(log, s.unk, marked, most, tokens) &&
                     out == Framed(s, tokens, addBos, addEos && !(addBos && max == 1))
  }

  // ------------------------------------------------------------------ decoding

  /** What one token contributes. */
  function TokenBytes(log: seq<Record>, s: Settings, id: int, first: bool): seq<Byte> {
    if id == s.bos || id == s.eos || !(0 <= id < s.size) || LastWithId(log, id, |log|) < 0 then []
    else Rendered(log[LastWithId(log, id, |log|)].text, first)
  }

  /** The decoded text, unbounded; `first` says that nothing precedes it. */
  function Decoded(log: seq<Record>, s: Settings, tokens: seq<int>, first: bool): seq<Byte> {
    if tokens == [] then []
    else
      var bytes := TokenBytes(log, s, tokens[0], first);
      bytes + Decoded(log, s, tokens[1..], first && bytes == [])
  }

  /** An ordinary id is rendered by the last record it was given to; the start and end tokens and ids without
      a record contribute nothing. */
  lemma TokenBytesCases(log: seq<Record>, s: Settings, k: nat, first: bool, id: int)
    ensures id == s.bos || id == s.eos ==> TokenBytes(log, s, id, first) == []
    ensures (forall j :: 0 <= j < |log| ==> log[j].id != id) ==> TokenBytes(log, s, id, first) == []
    ensures (k < |log| && log[k].id == id && (forall j :: k < j < |log| ==> log[j].id != id)
             && id < s.size && id != s.bos && id != s.eos)
            ==> TokenBytes(log, s, id, first) == Rendered(log[k].text, first)
  {
    hide Rendered;
  }

  /** One more token adds its bytes behind those of the others. */
  lemma {:induction false} DecodedAppend(log: seq<Record>, s: Settings, tokens: seq<int>, id: int, first: bool)
    ensures Decoded(log, s, [], first) == []
    ensures var before := Decoded(log, s, tokens, first);
      Decoded(log, s, tokens + [id], first) == before + TokenBytes(log, s, id, first && before == [])
  {
    hide TokenBytes;
    if tokens == [] {
      assert tokens + [id] == [id] && [id][1..] == [];
    } else {
      var bytes := TokenBytes(log, s, tokens[0], first);
      DecodedAppend(log, s, tokens[1..], id, first && bytes == []);
      assert (tokens + [id])[0] == tokens[0] && (tokens + [id])[1..] == tokens[1..] + [id];
    }
  }

  // ------------------------------------------------------------------ the tokeniser

  class Tokenizer {
    const vocab: Vocabulary
    const settings: Settings
    var initialized: bool

    ghost predicate Valid()
      reads this, vocab, vocab.heads, vocab.idToText, vocab.entries, vocab.texts
    {
      vocab.Valid() && settings.size == vocab.idToText.Length
    }

    /** `bpe_tokenizer_init` with successful allocations: the vocabulary holds the model's tokens
        under distinct ids, each its place in the list. */
    constructor (list: seq<seq<Byte>>, style: Style, bos: nat, eos: nat)
      requires forall i :: 0 <= i < |list| ==> CString(list[i])
      ensures Valid() && fresh(vocab.Repr())
      ensures settings == Settings(style, bos, eos, 0, |list|)
      ensures initialized == (|list| > 0)
      ensures vocab.Log() == Loaded(list, |list|, |list|).0 && DistinctIds(vocab.Log())
    {
      var v := new Vocabulary(|list|);
      v.Load(list);
      vocab := v;
      settings := Settings(style, bos, eos, 0, |list|);
      initialized := |list| > 0;
    }

    /** The three loops of `bpe_encode_greedy`, writing from `offset` on. */
    method EncodeGreedy(text: seq<Byte>, tokens: array<int>, offset: nat, max: int) returns (n: nat)
      requires Valid() && CString(text) && offset + max <= tokens.Length && offset <= tokens.Length
      requires tokens !in vocab.Repr()
      modifies tokens
      ensures offset + n <= tokens.Length && tokens[..offset] == old(tokens[..offset])
      ensures tokens[offset..offset + n] == Greedy(vocab.Log(), settings.unk, text, 0, max)
      ensures IsSegmentation(vocab.Log(), settings.unk, text, max, tokens[offset..offset + n])
      ensures n <= if max < 0 then 0 else max
    {
      hide Vocabulary.Valid, Vocabulary.Log, Next, CString, Greedy;
      ghost var log := vocab.Log();
      n := 0;
      var pos := 0;
      while pos < |text| && n < max
        invariant pos <= |text| && (n == 0 || n <= max) && offset + n <= tokens.Length
        invariant vocab.Log() == log && tokens[..offset] == old(tokens[..offset])
        invariant tokens[offset..offset + n] + Greedy(log, settings.unk, text, pos, max - n)
               == Greedy(log, settings.unk, text, 0, max)
        decreases |text| - pos
      {
        ghost var before := tokens[offset..offset + n];
        var id, len := NextToken(text, pos);
        GreedyNext(log, settings.unk, text, pos, max - n, before);
        tokens[offset + n] := id;
        n := n + 1;
        assert tokens[offset..offset + n] == before + [id];
        pos := pos + len;
      }
      GreedyEnd(log, settings.unk, text, pos, max - n);
      ghost var cuts := GreedySegments(log, settings.unk, text, 0, max);
      hide Segments;
    }

    /** One round: the longest match, or the byte fallback. */
    method NextToken(text: seq<Byte>, pos: nat) returns (id: int, len: nat)
      requires Valid() && CString(text) && pos < |text|
      ensures (id, len) == Next(vocab.Log(), settings.unk, text, pos)
    {
      hide Vocabulary.Valid, Vocabulary.Log, Find, ByteToken, CString, BestLen;
      id, len := LongestMatch(text, pos);
      if len == 0 {
        len := 1;
        id := vocab.Lookup(ByteToken(text[pos]));
        if id < 0 { id := settings.unk; }
      }
    }

    /** The loop over lengths: the last match it finds is the longest. */
    method LongestMatch(text: seq<Byte>, pos: nat) returns (id: int, len: nat)
      requires Valid() && CString(text) && pos < |text|
      ensures len == Longest(vocab.Log(), text, pos) && pos + len <= |text| && len <= MAX_TOKEN_LEN
      ensures len > 0 ==> id == Find(vocab.Log(), text[pos..pos + len]) && id >= 0
      ensures forall e :: pos + len < e <= |text| && e <= pos + MAX_TOKEN_LEN ==> Find(vocab.Log(), text[pos..e]) < 0
    {
      hide Vocabulary.Valid, Vocabulary.Log, Find, CString;
      id, len := -1, 0;
      var l := 1;
      while l <= MAX_TOKEN_LEN && pos + l <= |text|
        invariant 1 <= l && l <= MAX_TOKEN_LEN + 1 && pos + l <= |text| + 1
        invariant len == BestLen(vocab.Log(), text, pos, l - 1)
        invariant len > 0 ==> id == Find(vocab.Log(), text[pos..pos + len]) && id >= 0
      {
        PartIsCString(text, pos, pos + l);
        var found := vocab.Lookup(text[pos..pos + l]);
        if found >= 0 { id, len := found, l; }
        l := l + 1;
      }
    }

    /** `bpe_tokenizer_encode`. Whether the preprocessing buffer is granted is the allocator's answer;
        if it is not, the start token may already stand in the output. */
    method Encode(text: seq<Byte>, tokens: array<int>, max: int, addBos: bool, addEos: bool, granted: bool)
      returns (n: nat)
      requires Valid() && CString(text) && |text| < 0x1000_0000_0000_0000 && max <= tokens.Length
      requires tokens !in vocab.Repr()
      modifies tokens
      ensures n <= tokens.Length
      ensures !initialized || max <= 0 ==> n == 0 && tokens[..] == old(tokens[..])
      ensures initialized && max > 0 && !granted ==> tokens[..n] == if addBos then [settings.bos as int] else []
      ensures initialized && max > 0 && granted ==>
        && tokens[..n] == Encoded(vocab.Log(), settings, text, max, addBos, addEos)
        && EncodesTo(vocab.Log(), settings, text, max, addBos, addEos, tokens[..n])
    {
      hide Vocabulary.Valid, Vocabulary.Log, Body, CString, EncodesTo;
      n := 0;
      if !initialized || max <= 0 { return; }
      if addBos { n := AppendToken(tokens, n, settings.bos); }
      if !granted { return; }
      n := EncodeBody(text, tokens, n, max - n - 1);
      if addEos && n < max { n := AppendToken(tokens, n, settings.eos); }
      ghost var log := vocab.Log();
      assert tokens[..n] == Encoded(log, settings, text, max, addBos, addEos);
      hide Encoded, EncodedBody;
      EncodedParts(log, settings, text, max, addBos, addEos);
    }

    method AppendToken(tokens: array<int>, n: nat, id: int) returns (n': nat)
      requires n < tokens.Length && Valid() && tokens !in vocab.Repr()
      modifies tokens
      ensures n' == n + 1 && tokens[..n'] == old(tokens[..n]) + [id]
      ensures Valid() && vocab.Log() == old(vocab.Log())
    {
      hide Vocabulary.Valid, Vocabulary.Log;
      tokens[n] := id;
      n' := n + 1;
    }

    /** Preprocessing into a fresh buffer, then the greedy pass over it. */
    method EncodeBody(text: seq<Byte>, tokens: array<int>, offset: nat, max: int) returns (n: nat)
      requires Valid() && CString(text) && |text| < 0x1000_0000_0000_0000
      requires offset + max <= tokens.Length && offset <= tokens.Length
      requires tokens !in vocab.Repr()
      modifies tokens
      ensures Valid() && vocab.Log() == old(vocab.Log())
      ensures n <= tokens.Length
      ensures tokens[..n] == old(tokens[..offset]) + Body(vocab.Log(), settings, text, max)
    {
      hide Vocabulary.Valid, Vocabulary.Log, Marked, CString;
      var processed := new Byte[4 * |text| + 1];
      var length := Preprocess(settings.style, text, processed);
      MarkedIsCString(settings.style, text);
      n := EncodeGreedy(processed[..length], tokens, offset, max);
      n := offset + n;
      assert tokens[..n] == tokens[..offset] + tokens[offset..n];
    }

    /** `bpe_tokenizer_decode`: a prefix of the unbounded decoding, as long as the buffer allows. */
    method Decode(tokens: seq<int>, text: array<Byte>, max: int) returns (pos: nat)
      requires Valid() && max <= text.Length && text !in vocab.Repr()
      modifies text
      ensures !initialized || max <= 0 ==> pos == 0 && text[..] == old(text[..])
      ensures initialized && max > 0 ==>
        pos < max && text[pos] == 0 && text[..pos] == Take(Decoded(vocab.Log(), settings, tokens, true), max - 1)
    {
      hide Vocabulary.Valid, Vocabulary.Log, DecodeAt, TokenBytes;
      pos := 0;
      if !initialized || max <= 0 { return; }
      ghost var log := vocab.Log();
      var i := 0;
      DecodeStart(log, settings, tokens, max - 1);
      while i < |tokens| && pos < max - 1
        invariant i <= |tokens| && pos <= max - 1 && Valid() && vocab.Log() == log
        invariant DecodeAt(log, settings, tokens, i, text[..pos], max - 1)
      {
        ghost var before := text[..pos];
        pos := DecodeOne(tokens[i], text, pos, max);
        DecodeNext(log, settings, tokens, i, before, max - 1, text[..pos]);
        i := i + 1;
      }
      DecodeEnd(log, settings, tokens, i, text[..pos], max - 1);
      text[pos] := 0;
    }

    /** One token of the loop. */
    method DecodeOne(id: int, text: array<Byte>, pos: nat, max: nat) returns (end: nat)
      requires Valid() && pos + 1 < max <= text.Length && text !in vocab.Repr()
      modifies text
      ensures Valid() && vocab.Log() == old(vocab.Log())
      ensures pos <= end < max
      ensures text[..end] == Take(old(text[..pos]) + TokenBytes(vocab.Log(), settings, id, pos == 0), max - 1)
    {
      hide Vocabulary.Valid, Vocabulary.Log;
      end := pos;
      if id == settings.bos || id == settings.eos { return; }
      if 0 <= id < settings.size {
        var found, token := vocab.TokenText(id);
        if found { end := RenderInto(token, text, pos, max - 1); }
      }
    }
  }

  // ------------------------------------------------------------------ what an encoding is

  lemma StandsInFront(log: seq<Record>, unk: nat, text: seq<Byte>, pos: nat, id: int, cuts: seq<nat>, tokens: seq<int>)
    requires |cuts| == |tokens| + 1
    ensures EachStands(log, unk, text, [pos] + cuts, [id] + tokens)
       <==> Stands(log, unk, text, pos, cuts[0], id) && EachStands(log, unk, text, cuts, tokens)
  {
    hide Stands;
    var allCuts, all := [pos] + cuts, [id] + tokens;
    assert allCuts[0] == pos && allCuts[1] == cuts[0] && all[0] == id;
    if EachStands(log, unk, text, allCuts, all) {
      forall i | 0 <= i < |tokens| ensures Stands(log, unk, text, cuts[i], cuts[i + 1], tokens[i]) {
        assert Stands(log, unk, text, allCuts[i + 1], allCuts[i + 2], all[i + 1]);
      }
    }
  }

  /** The greedy pass cuts the text into pieces as `Segments` says. */
  lemma {:induction false} GreedySegments(log: seq<Record>, unk: nat, text: seq<Byte>, pos: nat, max: int)
    returns (cuts: seq<nat>)
    requires pos <= |text|
    ensures Segments(log, unk, text, pos, max, cuts, Greedy(log, unk, text, pos, max))
    decreases |text| - pos
  {
    hide Next, Stands, EachStands;
    if pos < |text| && max > 0 {
      var (id, len) := Next(log, unk, text, pos);
      NextStands(log, unk, text, pos);
      var rest := GreedySegments(log, unk, text, pos + len, max - 1);
      StandsInFront(log, unk, text, pos, id, rest, Greedy(log, unk, text, pos + len, max - 1));
      cuts := [pos] + rest;
    } else {
      cuts := [pos];
      NoneStand(log, unk, text, cuts);
    }
  }

  lemma NoneStand(log: seq<Record>, unk: nat, text: seq<Byte>, cuts: seq<nat>)
    requires |cuts| == 1
    ensures EachStands(log, unk, text, cuts, [])
  {
  }

  lemma NextStands(log: seq<Record>, unk: nat, text: seq<Byte>, pos: nat)
    requires pos < |text|
    ensures var (id, len) := Next(log, unk, text, pos); Stands(log, unk, text, pos, pos + len, id)
  {
    hide Find, ByteToken;
  }

  /** Only one token can stand at a place, and only for one piece. */
  lemma StandsIsNext(log: seq<Record>, unk: nat, text: seq<Byte>, pos: nat, to: nat, id: int)
    requires Stands(log, unk, text, pos, to, id)
    ensures pos < to <= |text| && Next(log, unk, text, pos) == (id, to - pos)
  {
    hide Find, ByteToken;
    var best := pos + Longest(log, text, pos);
    if best > pos { assert Find(log, text[pos..best]) >= 0; }
    if to <= pos + 64 && Find(log, text[pos..to]) >= 0 { assert best == to; }
  }

  /** Whatever satisfies `Segments` is the greedy pass. */
  lemma {:induction false} SegmentsAreGreedy(log: seq<Record>, unk: nat, text: seq<Byte>, pos: nat, max: int,
      cuts: seq<nat>, tokens: seq<int>)
    requires pos <= |text| && Segments(log, unk, text, pos, max, cuts, tokens)
    ensures tokens == Greedy(log, unk, text, pos, max)
    decreases |tokens|
  {
    hide Next, Stands, EachStands;
    if tokens != [] {
      var id, cuts', tokens' := tokens[0], cuts[1..], tokens[1..];
      assert cuts == [pos] + cuts' && tokens == [id] + tokens';
      StandsInFront(log, unk, text, pos, id, cuts', tokens');
      StandsIsNext(log, unk, text, pos, cuts'[0], id);
      SegmentsAreGreedy(log, unk, text, cuts'[0], max - 1, cuts', tokens');
    }
  }

  /** So the greedy pass is the one way of cutting a text into longest matches. */
  lemma SegmentationIff(log: seq<Record>, unk: nat, text: seq<Byte>, max: int, tokens: seq<int>)
    ensures IsSegmentation(log, unk, text, max, tokens) <==> tokens == Greedy(log, unk, text, 0, max)
  {
    hide Segments, Greedy;
    if IsSegmentation(log, unk, text, max, tokens) {
      var cuts :| Segments(log, unk, text, 0, max, cuts, tokens);
      SegmentsAreGreedy(log, unk, text, 0, max, cuts, tokens);
    }
    var cuts := GreedySegments(log, unk, text, 0, max);
  }

  /** `Encoded` is an encoding in that sense. */
  lemma EncodedParts(log: seq<Record>, s: Settings, text: seq<Byte>, max: int, addBos: bool, addEos: bool)
    requires max > 0
    ensures EncodesTo(log, s, text, max, addBos, addEos, Encoded(log, s, text, max, addBos, addEos))
  {
    var m := max - if addBos then 2 else 1;
    var tokens := Body(log, s, text, m);
    var cuts := GreedySegments(log, s.unk, Marked(s.style, text), 0, m);
    assert |tokens| <= if m < 0 then 0 else m by { hide EachStands, Greedy, Marked; }
    hide Body, Segments, Marked;
  }

  lemma GreedyNext(log: seq<Record>, unk: nat, text: seq<Byte>, pos: nat, max: int, before: seq<int>)
    requires pos < |text| && max > 0
    ensures var (id, len) := Next(log, unk, text, pos);
      before + Greedy(log, unk, text, pos, max) == before + [id] + Greedy(log, unk, text, pos + len, max - 1)
  {
    hide Next;
  }

  lemma GreedyEnd(log: seq<Record>, unk: nat, text: seq<Byte>, pos: nat, max: int)
    requires pos <= |text| && (pos == |text| || max <= 0)
    ensures Greedy(log, unk, text, pos, max) == []
  {
  }

  lemma PartIsCString(text: seq<Byte>, a: nat, b: nat)
    requires CString(text) && a <= b <= |text|
    ensures CString(text[a..b])
  {
  }

  /** Cutting early or late makes no difference. */
  lemma TakeTwice(a: seq<Byte>, b: seq<Byte>, c: seq<Byte>, c': seq<Byte>, cap: nat)
    requires |Take(a + b, cap)| < cap ==> c == c'
    ensures Take(Take(a + b, cap) + c', cap) == Take(a + (b + c), cap)
  {
    var x := a + b;
    assert a + (b + c) == x + c;
    if |x| >= cap {
      TakeFull(x, c, cap);
      TakeFull(x[..cap], c', cap);
    }
  }

  lemma TakeFull(x: seq<Byte>, c: seq<Byte>, cap: nat)
    requires |x| >= cap
    ensures Take(x + c, cap) == x[..cap] == Take(x, cap)
  {
  }

  lemma MarkedIsCString(style: Style, text: seq<Byte>)
    requires CString(text)
    ensures CString(Marked(style, text))
  {
    LimitedIsCString(style, text, |text|, SizeMinus(4 * |text|, Reserve(style)));
  }

  lemma {:induction false} LimitedIsCString(style: Style, text: seq<Byte>, n: nat, limit: nat)
    requires n <= |text| && CString(text)
    ensures CString(Limited(style, text, n, limit).out)
  {
    if n > 0 { LimitedIsCString(style, text, n - 1, limit); }
  }

  /** Where the decoder stands: `out` is written and the tokens from i on are to come. */
  ghost predicate DecodeAt(log: seq<Record>, s: Settings, tokens: seq<int>, i: nat, out: seq<Byte>, cap: nat) {
    && i <= |tokens| && |out| <= cap
    && Take(out + Decoded(log, s, tokens[i..], out == []), cap) == Take(Decoded(log, s, tokens, true), cap)
  }

  lemma DecodeStart(log: seq<Record>, s: Settings, tokens: seq<int>, cap: nat)
    ensures DecodeAt(log, s, tokens, 0, [], cap)
  {
    assert tokens[0..] == tokens && [] + Decoded(log, s, tokens, true) == Decoded(log, s, tokens, true);
  }

  lemma DecodeNext(log: seq<Record>, s: Settings, tokens: seq<int>, i: nat, out: seq<Byte>, cap: nat, after: seq<Byte>)
    requires DecodeAt(log, s, tokens, i, out, cap) && i < |tokens| && |out| < cap
    requires after == Take(out + TokenBytes(log, s, tokens[i], out == []), cap)
    ensures DecodeAt(log, s, tokens, i + 1, after, cap)
  {
    hide TokenBytes;
    var bytes, rest := TokenBytes(log, s, tokens[i], out == []), tokens[i..];
    assert rest[0] == tokens[i] && rest[1..] == tokens[i + 1..];
    TakeTwice(out, bytes, Decoded(log, s, tokens[i + 1..], out == [] && bytes == []),
              Decoded(log, s, tokens[i + 1..], after == []), cap);
  }

  lemma DecodeEnd(log: seq<Record>, s: Settings, tokens: seq<int>, i: nat, out: seq<Byte>, cap: nat)
    requires DecodeAt(log, s, tokens, i, out, cap) && (i == |tokens| || |out| == cap)
    ensures out == Take(Decoded(log, s, tokens, true), cap)
  {
    if i == |tokens| { assert out + Decoded(log, s, tokens[i..], out == []) == out; }
  }
}
