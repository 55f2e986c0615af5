/**
 Text on its way into and out of the tokeniser: the preprocessing that turns spaces into word
 markers, and the rendering of a token's text when it is decoded.
 */
module BpeText {
  import opened Common

  datatype Style = Unknown | SentencePiece | Gpt2

  /** The two markers in UTF-8: U+0120 for GPT-2 and U+2581 for SentencePiece. */
  const GPT2_MARK: seq<Byte> := [0xC4, 0xA0]
  const SP_MARK: seq<Byte> := [0xE2, 0x96, 0x81]

  predicate Blank(c: Byte) { c == 0x20 || c == 0x09 }
  predicate Newline(c: Byte) { c == 0x0A || c == 0x0D }
  predicate Regular(c: Byte) { !Blank(c) && !Newline(c) }

  // ------------------------------------------------------------------ preprocessing

  /** Output so far and `at_word_start`. */
  datatype Progress = Progress(out: seq<Byte>, atStart: bool)

  function Start(style: Style): Progress { Progress([], !style.Gpt2?) }

  /** One input byte. SentencePiece puts no marker in front of the very first word. */
  function Advance(style: Style, p: Progress, c: Byte): Progress {
    if Blank(c) then p.(atStart := true)
    else if Newline(c) then Progress(p.out + [c], true)
    else if p.atStart && style.Gpt2? then Progress(p.out + GPT2_MARK + [c], false)
    else if p.atStart && p.out != [] then Progress(p.out + SP_MARK + [c], false)
    else Progress(p.out + [c], false)
  }

  /** All of the first n bytes, as the documentation describes it. */
  function Full(style: Style, text: seq<Byte>, n: nat): Progress
    requires n <= |text|
  {
    if n == 0 then Start(style) else Advance(style, Full(style, text, n - 1), text[n - 1])
  }

  /** The loop of the source, which stops as soon as the output reaches `limit`. */
  function Limited(style: Style, text: seq<Byte>, n: nat, limit: nat): Progress
    requires n <= |text|
  {
    if n == 0 then Start(style)
    else
      var p := Limited(style, text, n - 1, limit);
      if |p.out| >= limit then p else Advance(style, p, text[n - 1])
  }

  /** `size_t` subtraction, which wraps. */
  function SizeMinus(a: nat, b: nat): nat { (a - b) % 0x1_0000_0000_0000_0000 }

  function Reserve(style: Style): nat { if style.Gpt2? then 3 else 4 }

  /** The body of the loop. */
  method AdvanceInto(style: Style, c: Byte, output: array<Byte>, n: nat, atStart: bool)
    returns (n': nat, atStart': bool)
    requires n + 4 < output.Length || (n + 3 < output.Length && style.Gpt2?)
    modifies output
    ensures n <= n' <= n + 4 && n' < output.Length
    ensures Progress(output[..n'], atStart') == Advance(style, Progress(old(output[..n]), atStart), c)
  {
    n', atStart' := n, atStart;
    if Blank(c) {
      atStart' := true;
    } else if Newline(c) {
      output[n] := c;
      n', atStart' := n + 1, true;
    } else {
      if style.Gpt2? && atStart {
        output[n], output[n + 1] := 0xC4, 0xA0;
        n' := n + 2;
        assert output[..n'] == old(output[..n]) + GPT2_MARK;
      } else if !style.Gpt2? && atStart && n > 0 {
        output[n], output[n + 1], output[n + 2] := 0xE2, 0x96, 0x81;
        n' := n + 3;
        assert output[..n'] == old(output[..n]) + SP_MARK;
      }
      label Marked:
      output[n'] := c;
      assert output[..n' + 1] == old@Marked(output[..n']) + [c];
      n', atStart' := n' + 1, false;
    }
  }

  /** The preprocessed text as the encoder gets it: the guard leaves room in a buffer of 4·|text|. */
  function Marked(style: Style, text: seq<Byte>): seq<Byte> {
    Limited(style, text, |text|, SizeMinus(4 * |text|, Reserve(style))).out
  }

  /** `bpe_preprocess_text` into a buffer of 4·|text| + 1 bytes, as the encoder calls it. */
  method Preprocess(style: Style, text: seq<Byte>, output: array<Byte>) returns (n: nat)
    requires |text| < 0x1000_0000_0000_0000 && output.Length == 4 * |text| + 1
    modifies output
    ensures n < output.Length && output[n] == 0
    ensures output[..n] == Marked(style, text)
  {
    var maxLen := 4 * |text|;
    var atStart := !style.Gpt2?;
    var pos := 0;
    n := 0;
    while pos < |text| && n < SizeMinus(maxLen, Reserve(style))
      invariant pos <= |text| && n <= maxLen
      invariant |text| > 0 ==> SizeMinus(maxLen, Reserve(style)) == maxLen - Reserve(style)
      invariant Progress(output[..n], atStart) == Limited(style, text, pos, SizeMinus(maxLen, Reserve(style)))
    {
      n, atStart := AdvanceInto(style, text[pos], output, n, atStart);
      pos := pos + 1;
    }
    StoppedEarly(style, text, pos, |text|, SizeMinus(maxLen, Reserve(style)));
    output[n] := 0;
  }

  /** Once the output is at the limit nothing more is read. */
  lemma {:induction false} StoppedEarly(style: Style, text: seq<Byte>, m: nat, n: nat, limit: nat)
    requires m <= n <= |text| && (m < n ==> |Limited(style, text, m, limit).out| >= limit)
    ensures Limited(style, text, n, limit) == Limited(style, text, m, limit)
  {
    if m < n { StoppedEarly(style, text, m, n - 1, limit); }
  }

  /** In GPT-2 mode the output is at most twice the input, one byte less at a word start. */
  lemma {:induction false} Gpt2Growth(text: seq<Byte>, n: nat)
    requires n <= |text|
    ensures var p := Full(Gpt2, text, n); |p.out| <= 2 * n - (if p.atStart then 1 else 0)
  {
    if n > 0 { Gpt2Growth(text, n - 1); }
  }

  /** SentencePiece markers are three bytes, but the first word has none and markers need a break. */
  lemma {:induction false} SpGrowth(style: Style, text: seq<Byte>, n: nat)
    requires n <= |text| && !style.Gpt2?
    ensures var p := Full(style, text, n);
      && (p.out == [] ==> p.atStart)
      && (n > 0 ==> 2 * |p.out| <= 5 * n - (if p.atStart then 3 else 0))
  {
    if n > 0 { SpGrowth(style, text, n - 1); }
  }

  lemma {:induction false} LimitNotReached(style: Style, text: seq<Byte>, n: nat, limit: nat)
    requires n <= |text| && forall k: nat :: k < n ==> |Full(style, text, k).out| < limit
    ensures Limited(style, text, n, limit) == Full(style, text, n)
  {
    if n > 0 { LimitNotReached(style, text, n - 1, limit); }
  }

  /** Byte k begins a word: it is no space, tab, line feed or carriage return, and one of them stands in
      front of it. */
  predicate BeginsWord(text: seq<Byte>, k: nat)
    requires k < |text|
  {
    text[k] !in {0x20, 0x09, 0x0A, 0x0D} && k > 0 && text[k - 1] in {0x20, 0x09, 0x0A, 0x0D}
  }

  predicate AllBlank(text: seq<Byte>, n: nat)
    requires n <= |text|
  {
    forall j :: 0 <= j < n ==> text[j] in {0x20, 0x09}
  }

  /** The markers in front of byte k: none but at a word's beginning, and with SentencePiece none there
      either if only blanks came before. */
  function MarkersAt(style: Style, text: seq<Byte>, k: nat): seq<Byte>
    requires k < |text|
  {
    if !BeginsWord(text, k) then []
    else if style == Gpt2 then [0xC4, 0xA0]
    else if AllBlank(text, k) then []
    else [0xE2, 0x96, 0x81]
  }

  /** Every byte but a blank is copied, behind the markers of its place. */
  lemma FullIsMarked(style: Style, text: seq<Byte>, n: nat)
    requires n < |text|
    ensures Full(style, text, 0).out == []
    ensures Full(style, text, n + 1).out
         == Full(style, text, n).out + MarkersAt(style, text, n) + if text[n] in {0x20, 0x09} then [] else [text[n]]
  {
    FullProgress(style, text, n);
    hide AllBlank;
  }

  /** Nothing is written as long as only blanks have come; a word is about to begin after a blank or a
      newline, and with SentencePiece at the very beginning. */
  lemma {:induction false} FullProgress(style: Style, text: seq<Byte>, n: nat)
    requires n <= |text|
    ensures var p := Full(style, text, n);
      && (p.out == [] <==> AllBlank(text, n))
      && p.atStart == if n == 0 then !style.Gpt2? else !Regular(text[n - 1])
  {
    if n > 0 {
      FullProgress(style, text, n - 1);
      AllBlankNext(text, n - 1);
      hide AllBlank;
    }
  }

  lemma AllBlankNext(text: seq<Byte>, n: nat)
    requires n < |text|
    ensures AllBlank(text, n + 1) <==> AllBlank(text, n) && Blank(text[n])
  {
  }

  lemma OneByte(style: Style, text: seq<Byte>)
    requires |text| == 1 && !style.Gpt2?
    ensures Marked(style, text) == [] && (Full(style, text, 1).out == [] <==> Blank(text[0]))
  {
    assert SizeMinus(4, 4) == 0;
    assert Full(style, text, 0) == Limited(style, text, 0, 0) == Start(style);
  }

  /** `bpe_preprocess_text` reads its whole input unless, outside GPT-2 mode, the input is one
      byte long and not a blank: then its loop guard stops it before the first byte. */
  lemma PreprocessingCompleteIff(style: Style, text: seq<Byte>)
    requires |text| < 0x1000_0000_0000_0000
    ensures Marked(style, text) == Full(style, text, |text|).out <==> style.Gpt2? || |text| != 1 || Blank(text[0])
  {
    if !style.Gpt2? && |text| == 1 {
      OneByte(style, text);
    } else {
      hide Full, Limited, SizeMinus, Reserve;
      forall k: nat | k < |text| ensures |Full(style, text, k).out| < SizeMinus(4 * |text|, Reserve(style)) {
        BelowLimit(style, text, k);
      }
      LimitNotReached(style, text, |text|, SizeMinus(4 * |text|, Reserve(style)));
    }
  }

  /** The output for the first k bytes is still below the loop's limit. */
  lemma BelowLimit(style: Style, text: seq<Byte>, k: nat)
    requires k < |text| < 0x1000_0000_0000_0000 && (style.Gpt2? || |text| > 1)
    ensures |Full(style, text, k).out| < SizeMinus(4 * |text|, Reserve(style))
  {
    hide Full;
    if style.Gpt2? {
      Gpt2Growth(text, k);
    } else {
      SpGrowth(style, text, k);
      if k == 0 { NothingRead(style, text); }
    }
  }

  lemma NothingRead(style: Style, text: seq<Byte>)
    ensures Full(style, text, 0).out == []
  {
  }

  // ------------------------------------------------------------------ rendering

  /** The decoder's last branch: markers anywhere in the text become a space or a newline. */
  function Convert(s: seq<Byte>): seq<Byte> {
    if s == [] then [] else [Glyph(s)] + Convert(s[Width(s)..])
  }

  /** The byte its next round writes, and how many it consumes. */
  function Glyph(s: seq<Byte>): Byte
    requires s != []
  {
    if Width(s) == 1 then s[0] else if s[1] == 0xA0 then 0x20 else 0x0A
  }

  function Width(s: seq<Byte>): (n: nat)
    requires s != []
    ensures 1 <= n <= |s|
  {
    if s[0] == 0xC4 && |s| > 1 && (s[1] == 0xA0 || s[1] == 0x8A) then 2 else 1
  }

  predicate LedBy(s: seq<Byte>, mark: seq<Byte>) { mark <= s }

  /** What one token adds to the decoded text; `first` says that nothing has been written yet. */
  function Rendered(token: seq<Byte>, first: bool): seq<Byte> {
    if LedBy(token, SP_MARK) then (if first then [] else [0x20]) + token[3..]
    else if LedBy(token, GPT2_MARK) then [0x20] + token[2..]
    else Convert(token)
  }

  /** The three cases of a token's text, by its first bytes. */
  lemma RenderedCases(rest: seq<Byte>, first: bool, t: seq<Byte>)
    ensures Rendered([0xE2, 0x96, 0x81] + rest, first) == if first then rest else [0x20] + rest
    ensures Rendered([0xC4, 0xA0] + rest, first) == [0x20] + rest
    ensures !([0xE2, 0x96, 0x81] <= t) && !([0xC4, 0xA0] <= t) ==> Rendered(t, first) == Convert(t)
  {
    hide Convert;
    var sp, gpt: seq<Byte> := [0xE2, 0x96, 0x81] + rest, [0xC4, 0xA0] + rest;
    assert sp[3..] == rest && gpt[2..] == rest && [] + rest == rest;
    assert sp[..3] == [0xE2, 0x96, 0x81] && gpt[0] == 0xC4 && gpt[..2] == [0xC4, 0xA0];
  }

  /** The spelling of a text in a GPT-2 vocabulary: U+0120 for a space and U+010A for a newline. */
  function Spelled(text: seq<Byte>): seq<Byte> {
    if text == [] then []
    else (if text[0] == 0x20 then [0xC4, 0xA0] else if text[0] == 0x0A then [0xC4, 0x8A] else [text[0]])
         + Spelled(text[1..])
  }

  /** Converting undoes the spelling of every text without the lead byte of the two. */
  lemma {:induction false} ConvertUndoesSpelling(text: seq<Byte>)
    requires 0xC4 !in text
    ensures Convert(Spelled(text)) == text
  {
    if text != [] {
      var s, rest := Spelled(text), Spelled(text[1..]);
      assert text[0] in text && forall b :: b in text[1..] ==> b in text;
      ConvertUndoesSpelling(text[1..]);
      assert s[Width(s)..] == rest;
      assert text == [text[0]] + text[1..];
    }
  }

  function Take(s: seq<Byte>, n: nat): seq<Byte> { if |s| <= n then s else s[..n] }

  /** Rendering into a buffer: as much as fits below `cap`. */
  method RenderInto(token: seq<Byte>, text: array<Byte>, pos: nat, cap: nat) returns (end: nat)
    requires pos < cap < text.Length
    modifies text
    ensures pos <= end <= cap && text[..end] == Take(old(text[..pos]) + Rendered(token, pos == 0), cap)
  {
    if LedBy(token, SP_MARK) {
      end := MarkedInto(pos > 0, token, 3, text, pos, cap);
    } else if LedBy(token, GPT2_MARK) {
      end := MarkedInto(true, token, 2, text, pos, cap);
    } else {
      end := ConvertInto(token, text, pos, cap);
    }
  }

  /** A token that leads with a marker of `from` bytes: perhaps a space, then the rest as it is. */
  method MarkedInto(space: bool, token: seq<Byte>, from: nat, text: array<Byte>, pos: nat, cap: nat) returns (end: nat)
    requires from <= |token| && pos < cap < text.Length
    modifies text
    ensures pos <= end <= cap
    ensures text[..end] == Take(old(text[..pos]) + ((if space then [0x20] else []) + token[from..]), cap)
  {
    end := pos;
    if space {
      text[pos] := 0x20;
      end := pos + 1;
    }
    ghost var head: seq<Byte> := if space then [0x20] else [];
    assert text[..end] == old(text[..pos]) + head;
    end := CopyRest(token, from, text, end, cap);
    assert old(text[..pos]) + head + token[from..] == old(text[..pos]) + (head + token[from..]);
  }

  method CopyRest(token: seq<Byte>, from: nat, text: array<Byte>, pos: nat, cap: nat) returns (end: nat)
    requires from <= |token| && pos <= cap < text.Length
    modifies text
    ensures pos <= end <= cap && text[..end] == Take(old(text[..pos]) + token[from..], cap)
  {
    end := pos;
    var j := from;
    while j < |token| && end < cap
      invariant from <= j <= |token| && end == pos + (j - from) <= cap
      invariant text[..end] == old(text[..pos]) + token[from..j]
    {
      text[end] := token[j];
      end, j := end + 1, j + 1;
    }
    assert old(text[..pos]) + token[from..] == text[..end] + token[j..];
  }

  method ConvertInto(token: seq<Byte>, text: array<Byte>, pos: nat, cap: nat) returns (end: nat)
    requires pos <= cap < text.Length
    modifies text
    ensures pos <= end <= cap && text[..end] == Take(old(text[..pos]) + Convert(token), cap)
  {
    hide Glyph, Width;
    end := pos;
    var j := 0;
    while j < |token| && end < cap
      invariant j <= |token| && pos <= end <= cap
      invariant text[..end] + Convert(token[j..]) == old(text[..pos]) + Convert(token)
    {
      ghost var before := text[..end];
      var c, width := NextGlyph(token, j);
      NextRound(before, token[j..]);
      text[end] := c;
      assert text[..end + 1] == before + [c];
      assert token[j..][width..] == token[j + width..];
      j := j + width;
      end := end + 1;
    }
  }

  /** One round of the conversion loop. */
  method NextGlyph(token: seq<Byte>, j: nat) returns (c: Byte, width: nat)
    requires j < |token|
    ensures c == Glyph(token[j..]) && width == Width(token[j..]) && j + width <= |token|
  {
    c, width := token[j], 1;
    if c == 0xC4 && j + 1 < |token| && token[j + 1] == 0xA0 {
      c, width := 0x20, 2;
    } else if c == 0xC4 && j + 1 < |token| && token[j + 1] == 0x8A {
      c, width := 0x0A, 2;
    }
  }

  lemma NextRound(before: seq<Byte>, s: seq<Byte>)
    requires s != []
    ensures before + Convert(s) == before + [Glyph(s)] + Convert(s[Width(s)..])
  {
  }

  // ------------------------------------------------------------------ what survives

  /** Bytes that no marker contains and that a C string may hold; all of ASCII is plain. */
  predicate Plain(s: seq<Byte>) { forall i :: 0 <= i < |s| ==> s[i] !in {0, 0xC4, 0xA0, 0xE2} }

  /** No tab; every space is followed by an ordinary byte, and no newline is. */
  predicate LossFree(s: seq<Byte>) {
    forall i {:trigger s[i]} :: 0 <= i < |s| ==>
      && s[i] != 0x09
      && (s[i] == 0x20 ==> i + 1 < |s| && Regular(s[i + 1]))
      && (Newline(s[i]) && i + 1 < |s| ==> !Regular(s[i + 1]))
  }

  predicate EndsIn(s: seq<Byte>, b: Byte) { s != [] && s[|s| - 1] == b }

  lemma {:induction false} ConvertAppend(a: seq<Byte>, b: seq<Byte>)
    requires !EndsIn(a, 0xC4)
    ensures Convert(a + b) == Convert(a) + Convert(b)
  {
    if a == [] {
      assert a + b == b;
    } else {
      var w := Width(a);
      assert Width(a + b) == w && Glyph(a + b) == Glyph(a) && (a + b)[w..] == a[w..] + b;
      hide Width, Glyph;
      ConvertAppend(a[w..], b);
      assert [Glyph(a)] + (Convert(a[w..]) + Convert(b)) == [Glyph(a)] + Convert(a[w..]) + Convert(b);
    }
  }

  lemma {:induction false} ConvertPlain(s: seq<Byte>)
    requires 0xC4 !in s
    ensures Convert(s) == s
  {
    if s != [] {
      assert s[0] in s && forall b :: b in s[1..] ==> b in s;
      ConvertPlain(s[1..]);
    }
  }

  /** Preprocessing and converting back, one byte at a time. */
  lemma ConvertStep(p: Progress, c: Byte)
    requires !EndsIn(p.out, 0xC4) && Plain([c])
    ensures !EndsIn(Advance(Gpt2, p, c).out, 0xC4)
    ensures Convert(Advance(Gpt2, p, c).out)
         == Convert(p.out) + if Blank(c) then [] else if Newline(c) || !p.atStart then [c] else [0x20, c]
  {
    assert c == [c][0];
    ConvertPlain([c]);
    MarkedByte(c);
    hide Convert;
    if Blank(c) {
      assert Convert(p.out) + [] == Convert(p.out);
    } else {
      ConvertAppend(p.out, [c]);
      ConvertAppend(p.out, GPT2_MARK + [c]);
      assert p.out + GPT2_MARK + [c] == p.out + (GPT2_MARK + [c]);
    }
  }

  /** A marker and its byte come back as a blank and the byte. */
  lemma MarkedByte(c: Byte)
    requires Plain([c])
    ensures Convert(GPT2_MARK + [c]) == [0x20, c]
  {
    assert c == [c][0];
    ConvertPlain([c]);
    assert (GPT2_MARK + [c])[2..] == [c];
  }

  lemma StaysLossFree(back: seq<Byte>, atStart: bool, c: Byte)
    requires LossFree(back) && (!atStart ==> back == [] || Regular(back[|back| - 1]))
    ensures var next := back + if Blank(c) then [] else if Newline(c) || !atStart then [c] else [0x20, c];
      LossFree(next) && (Regular(c) ==> next != [] && next[|next| - 1] == c)
  {
    if Blank(c) { assert back + [] == back; }
  }

  /** Whatever goes in, what comes back out of the markers is loss-free, and no byte of the
      marked form is a SentencePiece lead byte. */
  lemma {:induction false} BackIsLossFree(text: seq<Byte>, n: nat)
    requires n <= |text| && Plain(text)
    ensures var p := Full(Gpt2, text, n); var back := Convert(p.out);
      && !EndsIn(p.out, 0xC4) && LossFree(back) && 0xE2 !in p.out
      && (!p.atStart ==> back == [] || Regular(back[|back| - 1]))
  {
    if n > 0 {
      hide LossFree, Convert, EndsIn, Plain;
      BackIsLossFree(text, n - 1);
      var p, c := Full(Gpt2, text, n - 1), text[n - 1];
      PlainAt(text, n - 1);
      ConvertStep(p, c);
      NoLeadByte(p, c);
      StaysLossFree(Convert(p.out), p.atStart, c);
    }
  }

  lemma NoLeadByte(p: Progress, c: Byte)
    requires 0xE2 !in p.out && Plain([c])
    ensures 0xE2 !in Advance(Gpt2, p, c).out
  {
    assert [c][0] == c;
  }

  /** How much of the first n bytes has been written: a final blank still waits for its word. */
  function Written(text: seq<Byte>, n: nat): (k: nat)
    requires n <= |text|
    ensures k <= n
  {
    if n > 0 && Blank(text[n - 1]) then n - 1 else n
  }

  lemma NextComesBack(text: seq<Byte>, n: nat, atStart: bool, before: seq<Byte>, after: seq<Byte>)
    requires 0 < n <= |text| && LossFree(text)
    requires before == text[..Written(text, n - 1)] && atStart == (n > 1 && !Regular(text[n - 2]))
    requires var c := text[n - 1];
      after == before + if Blank(c) then [] else if Newline(c) || !atStart then [c] else [0x20, c]
    ensures after == text[..Written(text, n)]
  {
    assert text[n - 1] != 0x09;
    if n > 1 { assert text[n - 2] == 0x20 ==> Regular(text[n - 1]); }
  }

  lemma PlainAt(text: seq<Byte>, k: nat)
    requires Plain(text) && k < |text|
    ensures Plain([text[k]])
  {
  }

  /** A loss-free text comes back byte for byte. */
  lemma {:induction false} LossFreeComesBack(text: seq<Byte>, n: nat)
    requires n <= |text| && Plain(text) && LossFree(text)
    ensures var p := Full(Gpt2, text, n);
      && !EndsIn(p.out, 0xC4) && Convert(p.out) == text[..Written(text, n)]
      && p.atStart == (n > 0 && !Regular(text[n - 1]))
  {
    if n > 0 {
      hide LossFree, Convert, EndsIn, Plain;
      LossFreeComesBack(text, n - 1);
      var p := Full(Gpt2, text, n - 1);
      PlainAt(text, n - 1);
      ConvertStep(p, text[n - 1]);
      NextComesBack(text, n, p.atStart, Convert(p.out), Convert(Advance(Gpt2, p, text[n - 1]).out));
    }
  }

  /** Converting the markers back undoes GPT-2 preprocessing exactly on the loss-free texts. */
  lemma PreprocessingReversibleIff(text: seq<Byte>)
    requires Plain(text)
    ensures Convert(Full(Gpt2, text, |text|).out) == text <==> LossFree(text)
  {
    BackIsLossFree(text, |text|);
    if LossFree(text) {
      LossFreeComesBack(text, |text|);
      if text != [] { assert text[|text| - 1] != 0x20; }
      assert text[..|text|] == text;
    }
  }

  // ------------------------------------------------------------------ token texts

  /** A piece that neither splits a marker nor repeats one after leading with one. */
  predicate KeepsMarkers(t: seq<Byte>) {
    t != [] && t[0] != 0xA0 && !EndsIn(t, 0xC4) && (LedBy(t, GPT2_MARK) ==> 0xC4 !in t[2..])
  }

  lemma GoodPieceRenders(t: seq<Byte>, first: bool)
    requires KeepsMarkers(t) && 0xE2 !in t
    ensures Rendered(t, first) == Convert(t)
  {
    assert t[0] in t;
    if LedBy(t, GPT2_MARK) { ConvertPlain(t[2..]); }
  }

  lemma {:induction false} LastLeadByteStays(t: seq<Byte>)
    requires EndsIn(t, 0xC4)
    ensures 0xC4 in Convert(t)
  {
    if |t| > 1 { LastLeadByteStays(t[Width(t)..]); }
  }

  /** Any other piece leaves half a marker in the decoded text. */
  lemma BadPieceShows(t: seq<Byte>, first: bool)
    requires t != [] && !KeepsMarkers(t) && 0xE2 !in t
    ensures 0xC4 in Rendered(t, first) || 0xA0 in Rendered(t, first)
  {
    assert t[0] in t;
    if t[0] == 0xA0 {
      assert Convert(t)[0] == 0xA0;
    } else if LedBy(t, GPT2_MARK) {
      if EndsIn(t, 0xC4) { assert t[2..][|t| - 3] == 0xC4; }
    } else {
      LastLeadByteStays(t);
    }
  }
}
