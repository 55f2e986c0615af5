/**
 When decoding undoes encoding, in GPT-2 mode.
 */
module BpeRoundTrip {
  import opened Common
  import opened BpeVocabulary
  import opened BpeText
  import opened BpeTokenizer

  /** The greedy pass finds a vocabulary token everywhere it stops. */
  predicate Covered(log: seq<Record>, text: seq<Byte>, pos: nat)
    requires pos <= |text|
    decreases |text| - pos
  {
    pos == |text| || (Longest(log, text, pos) > 0 && Covered(log, text, pos + Longest(log, text, pos)))
  }

  function Piece(log: seq<Record>, text: seq<Byte>, pos: nat): seq<Byte>
    requires pos <= |text|
  {
    text[pos..pos + Longest(log, text, pos)]
  }

  /** The number of pieces from `pos` on. */
  function Count(log: seq<Record>, text: seq<Byte>, pos: nat): nat
    requires pos <= |text| && Covered(log, text, pos)
    decreases |text| - pos
  {
    if pos == |text| then 0 else 1 + Count(log, text, pos + Longest(log, text, pos))
  }

  /** No piece from `pos` on is the start or end token. */
  predicate NoSpecials(log: seq<Record>, s: Settings, text: seq<Byte>, pos: nat)
    requires pos <= |text| && Covered(log, text, pos)
    decreases |text| - pos
  {
    pos == |text| ||
    (Find(log, Piece(log, text, pos)) !in {s.bos as int, s.eos as int} &&
     NoSpecials(log, s, text, pos + Longest(log, text, pos)))
  }

  /** No piece from `pos` on splits a marker, or leads with one and has another. */
  predicate AllKeepMarkers(log: seq<Record>, text: seq<Byte>, pos: nat)
    requires pos <= |text| && Covered(log, text, pos)
    decreases |text| - pos
  {
    pos == |text| ||
    (KeepsMarkers(Piece(log, text, pos)) && AllKeepMarkers(log, text, pos + Longest(log, text, pos)))
  }

  /** A vocabulary as `bpe_tokenizer_init` leaves it. */
  predicate Indexed(log: seq<Record>, s: Settings) {
    DistinctIds(log) && forall k :: 0 <= k < |log| ==> log[k].id < s.size
  }

  lemma LoadedIsIndexed(list: seq<seq<Byte>>, style: Style, bos: nat, eos: nat)
    ensures Indexed(Loaded(list, |list|, |list|).0, Settings(style, bos, eos, 0, |list|))
  {
    var log := Loaded(list, |list|, |list|).0;
    assert forall k: nat :: k < |log| ==> log[k].id < |list|;
  }

  /** Decoding the token of a piece renders the piece. */
  lemma PieceDecodes(log: seq<Record>, s: Settings, text: seq<Byte>, pos: nat, first: bool)
    requires Indexed(log, s) && pos < |text| && Covered(log, text, pos) && NoSpecials(log, s, text, pos)
    ensures var (id, len) := Next(log, s.unk, text, pos);
      len == Longest(log, text, pos) && TokenBytes(log, s, id, first) == Rendered(Piece(log, text, pos), first)
  {
    hide Rendered;
    TextOfFind(log, Piece(log, text, pos));
  }

  lemma RenderedNotLonger(t: seq<Byte>, first: bool)
    requires 0xE2 !in t
    ensures |Rendered(t, first)| <= |t|
  {
    if t != [] { assert t[0] in t; }
    ConvertNotLonger(t);
  }

  lemma {:induction false} ConvertNotLonger(t: seq<Byte>)
    ensures |Convert(t)| <= |t|
  {
    if t != [] { ConvertNotLonger(t[Width(t)..]); }
  }

  /** The decoded greedy pass from `pos` on, and the number of its tokens. */
  function PassBack(log: seq<Record>, s: Settings, text: seq<Byte>, pos: nat, max: int, first: bool): seq<Byte>
    requires pos <= |text|
  {
    Decoded(log, s, Greedy(log, s.unk, text, pos, max), first)
  }

  function PassLength(log: seq<Record>, s: Settings, text: seq<Byte>, pos: nat, max: int): nat
    requires pos <= |text|
  {
    |Greedy(log, s.unk, text, pos, max)|
  }

  /** The decoded greedy pass over a marked text: the markers turned back when no piece spoils one,
      and otherwise half a marker shows. */
  lemma {:induction false} GreedyDecodes(log: seq<Record>, s: Settings, text: seq<Byte>, pos: nat, max: int,
      first: bool)
    requires Indexed(log, s) && pos <= |text| && Covered(log, text, pos) && NoSpecials(log, s, text, pos)
    requires 0xE2 !in text && Count(log, text, pos) <= max
    ensures var back := PassBack(log, s, text, pos, max, first);
      && PassLength(log, s, text, pos, max) == Count(log, text, pos)
      && |back| <= |text| - pos
      && (AllKeepMarkers(log, text, pos) ==> back == Convert(text[pos..]))
      && (!AllKeepMarkers(log, text, pos) ==> 0xC4 in back || 0xA0 in back)
    decreases |text| - pos
  {
    hide Next, TokenBytes, KeepsMarkers, Rendered, Longest, Indexed, LedBy, PassBack, PassLength, Piece, Find;
    if pos == |text| {
      NothingDecodes(log, s, text, max, first);
      return;
    }
    var next := pos + Longest(log, text, pos);
    PiecesFrom(log, s, text, pos, next);
    hide Count, NoSpecials, AllKeepMarkers, Covered;
    var (id, _) := Next(log, s.unk, text, pos);
    var t, bytes := Piece(log, text, pos), TokenBytes(log, s, id, first);
    PieceDecodes(log, s, text, pos, first);
    GreedyDecodes(log, s, text, next, max - 1, first && bytes == []);
    GreedyStep(log, s, text, pos, max, first);
    OnePiece(t, text[next..], bytes, PassBack(log, s, text, next, max - 1, first && bytes == []), first,
             AllKeepMarkers(log, text, next));
    assert text[pos..] == t + text[next..];
  }

  lemma NothingDecodes(log: seq<Record>, s: Settings, text: seq<Byte>, max: int, first: bool)
    ensures PassLength(log, s, text, |text|, max) == Count(log, text, |text|) == 0
    ensures PassBack(log, s, text, |text|, max, first) == [] == Convert(text[|text|..])
    ensures AllKeepMarkers(log, text, |text|)
  {
    assert text[|text|..] == [];
  }

  /** A piece in front of a rest that has been decoded. */
  lemma OnePiece(t: seq<Byte>, rest: seq<Byte>, bytes: seq<Byte>, back: seq<Byte>, first: bool, keeps: bool)
    requires t != [] && 0xE2 !in t && bytes == Rendered(t, first) && |back| <= |rest|
    requires keeps ==> back == Convert(rest)
    requires !keeps ==> 0xC4 in back || 0xA0 in back
    ensures |bytes + back| <= |t + rest|
    ensures KeepsMarkers(t) && keeps ==> bytes + back == Convert(t + rest)
    ensures !(KeepsMarkers(t) && keeps) ==> 0xC4 in bytes + back || 0xA0 in bytes + back
  {
    PieceShows(t, rest, first);
    hide Rendered, Convert, KeepsMarkers;
  }

  /** The conditions on the pieces, one piece on. */
  lemma PiecesFrom(log: seq<Record>, s: Settings, text: seq<Byte>, pos: nat, next: nat)
    requires pos < |text| && Covered(log, text, pos) && NoSpecials(log, s, text, pos)
    requires next == pos + Longest(log, text, pos)
    ensures pos < next <= |text| && Piece(log, text, pos) == text[pos..next]
    ensures Covered(log, text, next)
    ensures NoSpecials(log, s, text, next)
    ensures Count(log, text, pos) == 1 + Count(log, text, next)
    ensures AllKeepMarkers(log, text, pos)
       <==> KeepsMarkers(Piece(log, text, pos)) && AllKeepMarkers(log, text, next)
  {
    hide KeepsMarkers, Longest;
  }

  /** Unfolding the decoder along the encoder. */
  lemma GreedyStep(log: seq<Record>, s: Settings, text: seq<Byte>, pos: nat, max: int, first: bool)
    requires pos < |text| && max > 0
    ensures var (id, len) := Next(log, s.unk, text, pos);
      var bytes := TokenBytes(log, s, id, first);
      && PassLength(log, s, text, pos, max) == 1 + PassLength(log, s, text, pos + len, max - 1)
      && PassBack(log, s, text, pos, max, first)
         == bytes + PassBack(log, s, text, pos + len, max - 1, first && bytes == [])
  {
    hide Next, TokenBytes;
    var (id, len) := Next(log, s.unk, text, pos);
    var rest := Greedy(log, s.unk, text, pos + len, max - 1);
    assert Greedy(log, s.unk, text, pos, max) == [id] + rest && ([id] + rest)[1..] == rest;
  }

  /** What rendering a piece in front of a rest amounts to. */
  lemma PieceShows(t: seq<Byte>, rest: seq<Byte>, first: bool)
    requires t != [] && 0xE2 !in t
    ensures |Rendered(t, first)| <= |t|
    ensures KeepsMarkers(t) ==> Rendered(t, first) + Convert(rest) == Convert(t + rest)
    ensures !KeepsMarkers(t) ==> 0xC4 in Rendered(t, first) || 0xA0 in Rendered(t, first)
  {
    RenderedNotLonger(t, first);
    if KeepsMarkers(t) {
      GoodPieceRenders(t, first);
      ConvertAppend(t, rest);
    } else {
      BadPieceShows(t, first);
    }
  }

  /** The start and end tokens leave no trace. */
  lemma {:induction false} SpecialsVanish(log: seq<Record>, s: Settings, tokens: seq<int>, first: bool)
    ensures Decoded(log, s, [s.bos as int] + tokens, first) == Decoded(log, s, tokens, first)
    ensures Decoded(log, s, tokens + [s.eos as int], first) == Decoded(log, s, tokens, first)
  {
    assert ([s.bos as int] + tokens)[1..] == tokens;
    if tokens == [] {
      assert tokens + [s.eos as int] == [s.eos as int];
    } else {
      SpecialsVanish(log, s, tokens[1..], first && TokenBytes(log, s, tokens[0], first) == []);
      assert (tokens + [s.eos as int])[1..] == tokens[1..] + [s.eos as int];
    }
  }

  /** The whole way there and back, before the decoder's buffer is considered. */
  lemma ThereAndBack(log: seq<Record>, s: Settings, text: seq<Byte>, max: int, addBos: bool, addEos: bool)
    requires s.style.Gpt2? && Plain(text) && |text| < 0x1000_0000_0000_0000 && Indexed(log, s)
    requires Covered(log, Marked(Gpt2, text), 0) && NoSpecials(log, s, Marked(Gpt2, text), 0)
    requires Count(log, Marked(Gpt2, text), 0) + (if addBos then 2 else 1) <= max
    ensures var back := Decoded(log, s, Encoded(log, s, text, max, addBos, addEos), true);
      && |back| <= |Marked(Gpt2, text)|
      && (back == text <==> LossFree(text) && AllKeepMarkers(log, Marked(Gpt2, text), 0))
  {
    var marked := Marked(Gpt2, text);
    PreprocessingCompleteIff(Gpt2, text);
    BackIsLossFree(text, |text|);
    PreprocessingReversibleIff(text);
    var m := if addBos then max - 2 else max - 1;
    var body := Greedy(log, s.unk, marked, 0, m);
    GreedyDecodes(log, s, marked, 0, m, true);
    assert marked[0..] == marked;
    SpecialsVanish(log, s, body, true);
    SpecialsVanish(log, s, [s.bos as int] + body, true);
    assert forall b :: b in text ==> b !in {0xC4, 0xA0};
  }

  /** decode(encode(text)) = text holds exactly when the text has no tab, every space is followed by
      an ordinary byte and no newline is, and no vocabulary piece of the marked text splits a marker
      or repeats one after leading with one. The buffers must be large enough, the vocabulary must
      cover the text, and no piece may be the start or end token. */
  lemma RoundTripIff(log: seq<Record>, s: Settings, text: seq<Byte>, max: int, addBos: bool, addEos: bool, cap: nat)
    requires s.style.Gpt2? && Plain(text) && |text| < 0x1000_0000_0000_0000 && Indexed(log, s)
    requires Covered(log, Marked(Gpt2, text), 0) && NoSpecials(log, s, Marked(Gpt2, text), 0)
    requires Count(log, Marked(Gpt2, text), 0) + (if addBos then 2 else 1) <= max && cap >= |Marked(Gpt2, text)|
    ensures Take(Decoded(log, s, Encoded(log, s, text, max, addBos, addEos), true), cap) == text
       <==> LossFree(text) && AllKeepMarkers(log, Marked(Gpt2, text), 0)
  {
    hide Encoded, Decoded;
    ThereAndBack(log, s, text, max, addBos, addEos);
  }

  /** In the good case a buffer for the text itself is enough. */
  lemma RoundTrip(log: seq<Record>, s: Settings, text: seq<Byte>, max: int, addBos: bool, addEos: bool, cap: nat)
    requires s.style.Gpt2? && Plain(text) && |text| < 0x1000_0000_0000_0000 && Indexed(log, s)
    requires Covered(log, Marked(Gpt2, text), 0) && NoSpecials(log, s, Marked(Gpt2, text), 0)
    requires Count(log, Marked(Gpt2, text), 0) + (if addBos then 2 else 1) <= max && cap >= |text|
    requires LossFree(text) && AllKeepMarkers(log, Marked(Gpt2, text), 0)
    ensures Take(Decoded(log, s, Encoded(log, s, text, max, addBos, addEos), true), cap) == text
  {
    hide Encoded, Decoded;
    ThereAndBack(log, s, text, max, addBos, addEos);
  }

  // ------------------------------------------------------------------ on the tokeniser itself

  /** The log and the settings of a GPT-2 tokeniser for the model's token list. */
  ghost function LogFor(list: seq<seq<Byte>>): seq<Record> { Loaded(list, |list|, |list|).0 }
  function SettingsFor(list: seq<seq<Byte>>, bos: nat, eos: nat): Settings { Settings(Gpt2, bos, eos, 0, |list|) }

  /** What decoding an encoding gives, cut to `cap` bytes. */
  function Back(log: seq<Record>, s: Settings, text: seq<Byte>, max: int, addBos: bool, addEos: bool, cap: nat)
    : seq<Byte>
  {
    Take(Decoded(log, s, Encoded(log, s, text, max, addBos, addEos), true), cap)
  }

  /** A tokeniser for the model's token list encodes a text, and decodes what it got: where the vocabulary
      covers the text and the buffers are large enough, the text comes back exactly if it is loss-free
      and no piece spoils a marker. */
  method EncodeThenDecode(list: seq<seq<Byte>>, bos: nat, eos: nat, text: seq<Byte>, max: nat, addBos: bool,
      addEos: bool, cap: nat)
    returns (back: seq<Byte>)
    requires list != [] && (forall i :: 0 <= i < |list| ==> CString(list[i]))
    requires Plain(text) && |text| < 0x1000_0000_0000_0000 && max > 0 && cap > |Marked(Gpt2, text)|
    ensures back == Back(LogFor(list), SettingsFor(list, bos, eos), text, max, addBos, addEos, cap - 1)
    ensures Fits(LogFor(list), SettingsFor(list, bos, eos), text, max, addBos) ==>
              (back == text <==> LossFree(text) && AllKeepMarkers(LogFor(list), Marked(Gpt2, text), 0))
  {
    if Fits(LogFor(list), SettingsFor(list, bos, eos), text, max, addBos) {
      ListRoundTrips(list, bos, eos, text, max, addBos, addEos, cap - 1);
    }
    back := ThroughTokenizer(list, bos, eos, text, max, addBos, addEos, cap);
    hide LogFor, SettingsFor, Back, Fits, LossFree, AllKeepMarkers, Marked, Plain;
  }

  lemma ListRoundTrips(list: seq<seq<Byte>>, bos: nat, eos: nat, text: seq<Byte>, max: nat, addBos: bool,
      addEos: bool, cap: nat)
    requires Plain(text) && |text| < 0x1000_0000_0000_0000 && cap >= |Marked(Gpt2, text)|
    requires Fits(LogFor(list), SettingsFor(list, bos, eos), text, max, addBos)
    ensures Back(LogFor(list), SettingsFor(list, bos, eos), text, max, addBos, addEos, cap) == text
       <==> LossFree(text) && AllKeepMarkers(LogFor(list), Marked(Gpt2, text), 0)
  {
    LoadedIsIndexed(list, Gpt2, bos, eos);
    assert Indexed(LogFor(list), SettingsFor(list, bos, eos)) && SettingsFor(list, bos, eos).style.Gpt2?;
    hide LogFor, SettingsFor, Encoded, Decoded, Indexed, Covered, Count, NoSpecials, Marked, AllKeepMarkers;
    hide LossFree, Take, Plain;
    RoundTripIff(LogFor(list), SettingsFor(list, bos, eos), text, max, addBos, addEos, cap);
  }

  /** The tokeniser and the two calls. */
  method ThroughTokenizer(list: seq<seq<Byte>>, bos: nat, eos: nat, text: seq<Byte>, max: nat, addBos: bool,
      addEos: bool, cap: nat)
    returns (back: seq<Byte>)
    requires list != [] && (forall i :: 0 <= i < |list| ==> CString(list[i]))
    requires Plain(text) && |text| < 0x1000_0000_0000_0000 && max > 0 && cap > 0
    ensures back == Back(LogFor(list), SettingsFor(list, bos, eos), text, max, addBos, addEos, cap - 1)
  {
    hide Loaded, Back, Plain, DistinctIds, Tokenizer.Valid, Vocabulary.Valid, Vocabulary.Log, Vocabulary.Repr;
    var t := new Tokenizer(list, Gpt2, bos, eos);
    back := ThroughBuffers(t, text, max, addBos, addEos, cap);
  }

  /** The two calls, each with a buffer of its own. */
  method ThroughBuffers(t: Tokenizer, text: seq<Byte>, max: nat, addBos: bool, addEos: bool, cap: nat)
    returns (back: seq<Byte>)
    requires t.Valid() && t.initialized && Plain(text) && |text| < 0x1000_0000_0000_0000 && max > 0 && cap > 0
    ensures t.Valid()
    ensures back == Back(t.vocab.Log(), t.settings, text, max, addBos, addEos, cap - 1)
  {
    hide Vocabulary.Valid, Vocabulary.Log, Encoded, Decoded, Take;
    var tokens := new int[max];
    var n := t.Encode(text, tokens, max, addBos, addEos, true);
    var buffer := new Byte[cap];
    var pos := t.Decode(tokens[..n], buffer, cap);
    back := buffer[..pos];
  }

  /** The vocabulary covers the marked text with ordinary pieces, and the token buffer holds them. */
  predicate Fits(log: seq<Record>, s: Settings, text: seq<Byte>, max: int, addBos: bool) {
    var marked := Marked(Gpt2, text);
    && Covered(log, marked, 0) && NoSpecials(log, s, marked, 0)
    && Count(log, marked, 0) + (if addBos then 2 else 1) <= max
  }

  // ------------------------------------------------------------------ a text that does not come back

  /** A vocabulary of the letter a and the two halves of the GPT-2 marker. */
  function HalfMarkers(): seq<seq<Byte>> { [[97], [0xC4], [0xA0]] }

  ghost function HalfMarkerLog(): seq<Record> { Loaded(HalfMarkers(), 3, 3).0 }

  lemma HalfMarkerLogIs()
    ensures HalfMarkerLog() == [Record([97], 0), Record([0xC4], 1), Record([0xA0], 2)]
  {
    var list := HalfMarkers();
    var none, one: seq<Record>, two := [], [Record([97], 0)], [Record([97], 0), Record([0xC4], 1)];
    assert none + [Record([97], 0)] == one && one + [Record([0xC4], 1)] == two;
    assert Loaded(list, 3, 0) == (none, 0) && Loaded(list, 3, 1) == (one, 2) && Loaded(list, 3, 2) == (two, 4);
  }

  lemma HalfMarkersIndexed()
    ensures Indexed(HalfMarkerLog(), HalfMarkerSettings())
  {
    LoadedIsIndexed(HalfMarkers(), Gpt2, 3, 3);
    hide Indexed, Loaded;
  }

  /** Where all texts are single bytes, the longest match is one byte. */
  lemma {:induction false} SingleBytes(log: seq<Record>, text: seq<Byte>, pos: nat, len: nat)
    requires forall k: nat :: k < |log| ==> |log[k].text| == 1
    requires pos + len <= |text| && len > 0 && Find(log, text[pos..pos + 1]) >= 0
    ensures BestLen(log, text, pos, len) == 1
  {
    if len > 1 {
      assert Find(log, text[pos..pos + len]) < 0;
      SingleBytes(log, text, pos, len - 1);
    }
  }

  /** A blank and an a: marked, the three bytes of the vocabulary. */
  function BlankA(): seq<Byte> { [0x20, 97] }

  lemma MarkedBlankA()
    ensures Marked(Gpt2, BlankA()) == [0xC4, 0xA0, 97] && LossFree(BlankA()) && Plain(BlankA()) && |BlankA()| == 2
  {
    var text := BlankA();
    PreprocessingCompleteIff(Gpt2, text);
    assert Full(Gpt2, text, 0) == Progress([], false) && Full(Gpt2, text, 1) == Progress([], true);
    assert Full(Gpt2, text, 2) == Progress([0xC4, 0xA0, 97], false);
  }

  lemma HalfMarkerPieces(pos: nat)
    requires pos < 3
    ensures var log, marked := HalfMarkerLog(), [0xC4, 0xA0, 97];
      && Longest(log, marked, pos) == 1 && Piece(log, marked, pos) == [marked[pos]]
      && Find(log, [marked[pos]]) in {0, 1, 2}
  {
    HalfMarkerLogIs();
    var log, marked := HalfMarkerLog(), [0xC4, 0xA0, 97];
    assert marked[pos..pos + 1] == [marked[pos]];
    assert log[0].text == [97] && log[1].text == [0xC4] && log[2].text == [0xA0];
    SingleBytes(log, marked, pos, 3 - pos);
  }

  lemma HalfMarkersCover(s: Settings)
    requires s.bos == s.eos == 3
    ensures var log, marked := HalfMarkerLog(), [0xC4, 0xA0, 97];
      && Covered(log, marked, 0) && Count(log, marked, 0) == 3 && NoSpecials(log, s, marked, 0)
      && !AllKeepMarkers(log, marked, 0)
  {
    var log, marked: seq<Byte> := HalfMarkerLog(), [0xC4, 0xA0, 97];
    HalfMarkerPieces(0);
    HalfMarkerPieces(1);
    HalfMarkerPieces(2);
    hide HalfMarkerLog, Longest, Find, Piece;
    assert Covered(log, marked, 3) && Covered(log, marked, 2) && Covered(log, marked, 1);
    assert Count(log, marked, 2) == 1 && Count(log, marked, 1) == 2;
    assert NoSpecials(log, s, marked, 2) && NoSpecials(log, s, marked, 1);
  }

  function HalfMarkerSettings(): Settings { Settings(Gpt2, 3, 3, 0, 3) }

  /** For instance: with this vocabulary the loss-free text of a blank and an a does not come back, in
      whatever buffers, although every byte of it has a token. */
  lemma HalfMarkersFail(max: int, cap: nat)
    requires max >= 4 && cap >= 3
    ensures var log, s := HalfMarkerLog(), HalfMarkerSettings();
      && LossFree(BlankA()) && Fits(log, s, BlankA(), max, false)
      && Back(log, s, BlankA(), max, false, false, cap) != BlankA()
  {
    var log, s := HalfMarkerLog(), HalfMarkerSettings();
    MarkedBlankA();
    HalfMarkersCover(s);
    HalfMarkersIndexed();
    hide HalfMarkerLog, Indexed, Encoded, Decoded, Covered, Count, NoSpecials, AllKeepMarkers, Marked, LossFree, Take;
    hide BlankA, Plain;
    assert Fits(log, s, BlankA(), max, false);
    RoundTripIff(log, s, BlankA(), max, false, false, cap);
  }
}
