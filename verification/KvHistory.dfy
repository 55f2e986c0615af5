/**
 What whole runs of stores leave in a layer: which configurations keep every store inside
 the buffer, and which make the sliding cache a suffix of the token history.
 */
module KvHistory {
  import opened Common
  import opened KvCache

  datatype Token<T> = Token(key: seq<T>, value: seq<T>)
  datatype Request<T> = Request(position: nat, token: Token<T>)

  predicate Sized<T>(cfg: Config, t: Token<T>) { |t.key| == |t.value| == cfg.Vec() }

  predicate AllSized<T>(cfg: Config, tokens: seq<Token<T>>) {
    forall i :: 0 <= i < |tokens| ==> Sized(cfg, tokens[i])
  }

  predicate SizedRun<T>(cfg: Config, rs: seq<Request<T>>) {
    forall i :: 0 <= i < |rs| ==> Sized(cfg, rs[i].token)
  }

  /** One store request; `None` is a write past the end of the buffer. */
  function Step<T(!new)>(cfg: Config, s: LayerState<T>, r: Request<T>): (result: Option<LayerState<T>>)
    requires ValidConfig(cfg) && Fits(cfg, s) && Sized(cfg, r.token)
    ensures result.Some? ==> Fits(cfg, result.value)
  {
    if Refused(cfg, r.position) then Some(s)
    else if InBounds(cfg, s, r.position) then Some(Stored(cfg, s, r.position, r.token.key, r.token.value))
    else None
  }

  /** A run of store requests. */
  function Run<T(!new)>(cfg: Config, s: LayerState<T>, rs: seq<Request<T>>): (result: Option<LayerState<T>>)
    requires ValidConfig(cfg) && Fits(cfg, s) && SizedRun(cfg, rs)
    ensures result.Some? ==> Fits(cfg, result.value)
  {
    if rs == [] then Some(s)
    else
      var before := Run(cfg, s, rs[..|rs| - 1]);
      if before.None? then None else Step(cfg, before.value, rs[|rs| - 1])
  }

  // ------------------------------------------------------------------ bounds

  /** The buffer has room for `max` stored vectors, and nothing is ever evicted or the sliding
      window is non-empty and shorter than that room. */
  predicate SafeConfig(cfg: Config) {
    cfg.max <= cfg.Slots() && (cfg.eviction.NoEviction? || (cfg.eviction.Sliding? && 0 < cfg.window < cfg.Slots()))
  }

  lemma {:induction false} SafeRuns<T(!new)>(cfg: Config, s: LayerState<T>, rs: seq<Request<T>>)
    requires ValidConfig(cfg) && SafeConfig(cfg) && Fits(cfg, s) && SizedRun(cfg, rs)
    ensures Run(cfg, s, rs).Some?
  {
    hide Config.Slots, Config.Capacity, Config.Vec, Config.Unit, Stored, Bytes;
    if rs != [] { SafeRuns(cfg, s, rs[..|rs| - 1]); }
  }

  /** `n` stores at the first position past the end. */
  function Hammer<T>(cfg: Config, t: Token<T>, n: nat): seq<Request<T>> { seq(n, _ => Request(cfg.max, t)) }

  /** Under a policy that frees nothing, each of them takes one more slot. */
  lemma {:induction false} HammerGrows<T(!new)>(cfg: Config, s: LayerState<T>, t: Token<T>, n: nat)
    requires ValidConfig(cfg) && Fits(cfg, s) && Sized(cfg, t) && !cfg.eviction.NoEviction?
    requires !(cfg.eviction.Sliding? && 0 < cfg.window < cfg.Slots())
    ensures var result := Run(cfg, s, Hammer(cfg, t, n)); result.Some? ==> result.value.seqLen == s.seqLen + n
  {
    if n > 0 {
      assert Hammer(cfg, t, n)[..n - 1] == Hammer(cfg, t, n - 1);
      HammerGrows(cfg, s, t, n - 1);
      var before := Run(cfg, s, Hammer(cfg, t, n - 1));
      hide Config.Slots, Config.Capacity, Config.Vec, Config.Unit, Bytes;
      if before.Some? { assert Target(cfg, before.value, cfg.max) == before.value.seqLen; }
    }
  }

  /** A run that leaves the buffer of an unsafe configuration: its last legal position, or one
      token more than the buffer holds. */
  function Overrunning<T>(cfg: Config, t: Token<T>): seq<Request<T>>
    requires cfg.max > 0
  {
    if cfg.max > cfg.Slots() then [Request(cfg.max - 1, t)] else Hammer(cfg, t, cfg.Slots() + 1)
  }

  lemma OverrunFails<T(!new)>(cfg: Config, s: LayerState<T>, t: Token<T>)
    requires ValidConfig(cfg) && Fits(cfg, s) && Sized(cfg, t) && !SafeConfig(cfg)
    ensures SizedRun(cfg, Overrunning(cfg, t)) && Run(cfg, s, Overrunning(cfg, t)).None?
  {
    hide Config.Slots, Config.Capacity, Config.Vec, Config.Unit, Bytes, Evicted, Written, Hammer, Run, Fits, Step;
    if cfg.max > cfg.Slots() {
      LastPositionFails(cfg, s, t);
    } else {
      HammerFails(cfg, s, t);
    }
  }

  lemma HammerFails<T(!new)>(cfg: Config, s: LayerState<T>, t: Token<T>)
    requires ValidConfig(cfg) && Fits(cfg, s) && Sized(cfg, t) && !cfg.eviction.NoEviction?
    requires !(cfg.eviction.Sliding? && 0 < cfg.window < cfg.Slots())
    ensures SizedRun(cfg, Hammer(cfg, t, cfg.Slots() + 1)) && Run(cfg, s, Hammer(cfg, t, cfg.Slots() + 1)).None?
  {
    hide Config.Slots, Config.Capacity, Config.Vec, Config.Unit, Bytes, Evicted, Written, Run, Step;
    HammerGrows(cfg, s, t, cfg.Slots() + 1);
  }

  lemma LastPositionFails<T(!new)>(cfg: Config, s: LayerState<T>, t: Token<T>)
    requires ValidConfig(cfg) && Fits(cfg, s) && Sized(cfg, t) && cfg.max > cfg.Slots()
    ensures Run(cfg, s, [Request(cfg.max - 1, t)]).None?
  {
    hide Config.Slots, Config.Capacity, Config.Vec, Config.Unit, Bytes, Evicted, Written, Run;
    OneRequest(cfg, s, Request(cfg.max - 1, t));
  }

  lemma OneRequest<T(!new)>(cfg: Config, s: LayerState<T>, r: Request<T>)
    requires ValidConfig(cfg) && Fits(cfg, s) && Sized(cfg, r.token)
    ensures Run(cfg, s, [r]) == Step(cfg, s, r)
  {
    hide Step, Fits, Config.Vec, Config.Unit, Bytes;
    assert [r][..0] == [] && Run(cfg, s, []) == Some(s);
  }

  /** No run of stores, at whatever positions, leaves the buffer if and only if the buffer has
      room for `max` stored vectors and the eviction policy, if any, frees a slot of that room. */
  lemma StoresStayInBoundsIff<T(!new)>(cfg: Config, s: LayerState<T>, filler: Token<T>)
    requires ValidConfig(cfg) && Fits(cfg, s) && Sized(cfg, filler)
    ensures SafeConfig(cfg) <==>
      forall rs: seq<Request<T>> :: SizedRun(cfg, rs) ==> Run(cfg, s, rs).Some?
  {
    if SafeConfig(cfg) {
      forall rs: seq<Request<T>> | SizedRun(cfg, rs) ensures Run(cfg, s, rs).Some? {
        SafeRuns(cfg, s, rs);
      }
    } else {
      OverrunFails(cfg, s, filler);
    }
  }

  /** 4-byte elements leave room for `max` vectors. 2-byte elements leave about half of it, and
      the rounding to pages makes up for that only when all the data fits into one page. */
  lemma RoomForMax(cfg: Config)
    requires ValidConfig(cfg)
    ensures cfg.ElemSize() == 4 ==> cfg.max <= cfg.Slots()
    ensures cfg.ElemSize() == 2 && Bytes(cfg.max, cfg.Unit()) >= PAGE ==> cfg.max > cfg.Slots()
  {
    VecPositive(cfg);
    UnitWithinVec(cfg);
    SlotsFit(cfg);
    AlignUpBounds(Bytes(cfg.max, cfg.Unit()), PAGE);
    hide Config.Slots, Config.Vec, Config.Unit, AlignUp, Bytes;
    assert cfg.Capacity() == AlignUp(Bytes(cfg.max, cfg.Unit()), PAGE);
    if cfg.ElemSize() == 4 {
      NoMoreSlots(cfg.max, cfg.Slots(), cfg.Vec(), cfg.Capacity());
    } else {
      Twice(cfg.max, cfg.Unit(), cfg.Vec());
      if cfg.max <= cfg.Slots() { MoreBytes(cfg.max, cfg.Slots(), cfg.Vec()); }
    }
  }

  lemma VecPositive(cfg: Config)
    requires ValidConfig(cfg)
    ensures cfg.Vec() >= 4 && cfg.Unit() >= 2
  {
    ProductPositive(cfg.heads, cfg.headDim);
    assert cfg.Dim() >= 1;
    hide Config.Dim;
  }

  lemma ProductPositive(a: nat, b: nat)
    requires a > 0 && b > 0
    ensures a * b > 0
  {
  }

  lemma Twice(n: nat, unit: nat, vec: nat)
    requires vec == 2 * unit
    ensures Bytes(n, vec) == 2 * Bytes(n, unit)
  {
  }

  /** `slots` is all that fits, so `n` vectors that fit are no more than that. */
  lemma NoMoreSlots(n: nat, slots: nat, vec: nat, capacity: nat)
    requires Bytes(n, vec) <= capacity < Bytes(slots, vec) + vec
    ensures n <= slots
  {
    if n > slots {
      OneMore(slots, vec);
      MoreBytes(slots + 1, n, vec);
    }
  }

  /** `Slots` is exact: a vector stored at slot i ends inside the buffer if and only if i is below it. */
  lemma SlotsAreExact(cfg: Config, i: nat)
    requires ValidConfig(cfg)
    ensures i < cfg.Slots() <==> Bytes(i, cfg.Vec()) + cfg.Vec() <= cfg.Capacity()
  {
    VecPositive(cfg);
    SlotsFit(cfg);
    hide Config.Slots, Config.Vec, Config.Unit, Config.Capacity, Bytes;
    if i < cfg.Slots() {
      SlotFits(cfg, i);
    } else {
      MoreBytes(cfg.Slots(), i, cfg.Vec());
    }
  }

  /** The repository's default dimensions with half-precision elements: every store into the upper
      half of the positions leaves the buffer, with or without a sliding window. */
  lemma HalfPrecisionOverruns<T(!new)>(cfg: Config, s: LayerState<T>, position: nat, t: Token<T>)
    requires cfg in {Config(22, 4, 64, 2048, 512, Float16, NoEviction), Config(22, 4, 64, 2048, 512, Float16, Sliding)}
    requires Fits(cfg, s) && Sized(cfg, t) && 1024 <= position < 2048
    ensures Step(cfg, s, Request(position, t)).None?
  {
    assert cfg.Vec() == 1024 && cfg.Capacity() == 1048576;
  }

  /** A batch that `kv_cache_store_batch_f32` does not refuse. */
  predicate Accepted(cfg: Config, first: nat, n: nat) { n > 0 && !(PastEnd(cfg, first, n) && cfg.eviction.NoEviction?) }

  /** Batches stay inside the buffer only where nothing is evicted at all: an accepted batch past
      the end is written where it was asked for, whatever has been evicted. */
  lemma BatchesStayInBoundsIff(cfg: Config)
    requires ValidConfig(cfg)
    ensures (cfg.eviction.NoEviction? && cfg.max <= cfg.Slots()) <==>
      forall first: nat, n: nat :: Accepted(cfg, first, n) ==> first + n <= cfg.Slots()
  {
    hide Config.Slots, Config.Capacity, Config.Vec, Config.Unit, Bytes;
    if !cfg.eviction.NoEviction? {
      assert Accepted(cfg, cfg.Slots(), 1);
    } else if cfg.max > cfg.Slots() {
      assert Accepted(cfg, cfg.max - 1, 1);
    }
  }

  // ------------------------------------------------------------------ the sliding window

  /** Tokens stored at positions 0, 1, 2, … as the generation loop does. */
  function InOrder<T>(tokens: seq<Token<T>>): seq<Request<T>> {
    seq(|tokens|, i requires 0 <= i < |tokens| => Request(i, tokens[i]))
  }

  function KeyAt<T>(cfg: Config, s: LayerState<T>, i: nat): seq<T>
    requires |s.keys| == |s.values| == cfg.Capacity() && i < cfg.Slots()
  {
    SlotFits(cfg, i);
    Slot(s.keys, i, cfg.Vec())
  }

  function ValueAt<T>(cfg: Config, s: LayerState<T>, i: nat): seq<T>
    requires |s.keys| == |s.values| == cfg.Capacity() && i < cfg.Slots()
  {
    SlotFits(cfg, i);
    Slot(s.values, i, cfg.Vec())
  }

  /** The layer holds the last `seqLen` of the tokens, in order. */
  ghost predicate HoldsSuffix<T(!new)>(cfg: Config, s: LayerState<T>, tokens: seq<Token<T>>)
    requires Fits(cfg, s)
  {
    && s.startPos + s.seqLen == |tokens|
    && forall i: nat :: i < s.seqLen ==>
         KeyAt(cfg, s, i) == tokens[s.startPos + i].key && ValueAt(cfg, s, i) == tokens[s.startPos + i].value
  }

  /** A write behind the last token appends it. */
  lemma AppendKeepsSuffix<T(!new)>(cfg: Config, s: LayerState<T>, tokens: seq<Token<T>>, t: Token<T>)
    requires Fits(cfg, s) && HoldsSuffix(cfg, s, tokens) && Sized(cfg, t) && s.seqLen < cfg.Slots()
    ensures HoldsSuffix(cfg, Written(cfg, s, s.seqLen, t.key, t.value), tokens + [t])
  {
    hide Put, Slot, Config.Slots, Config.Capacity, Config.Vec, Config.Unit, Bytes;
    var slot, r, all := s.seqLen, Written(cfg, s, s.seqLen, t.key, t.value), tokens + [t];
    forall i: nat | i < r.seqLen
      ensures KeyAt(cfg, r, i) == all[r.startPos + i].key && ValueAt(cfg, r, i) == all[r.startPos + i].value
    {
      SlotFits(cfg, i);
      SlotFits(cfg, slot);
      SlotOfPut(s.keys, slot, t.key, i);
      SlotOfPut(s.values, slot, t.value, i);
      if i < slot {
        assert KeyAt(cfg, s, i) == tokens[s.startPos + i].key;
      } else {
        assert all[s.startPos + i] == t;
      }
    }
  }

  /** With 4-byte elements, evicting keeps a suffix, a shorter one. */
  lemma EvictKeepsSuffix<T(!new)>(cfg: Config, s: LayerState<T>, tokens: seq<Token<T>>)
    requires ValidConfig(cfg) && cfg.ElemSize() == 4 && cfg.eviction.Sliding?
    requires Fits(cfg, s) && HoldsSuffix(cfg, s, tokens) && |tokens| <= TWO32 && 0 < cfg.window < s.seqLen
    ensures HoldsSuffix(cfg, Evicted(cfg, s), tokens) && Evicted(cfg, s).seqLen == cfg.window
    ensures Evicted(cfg, s).evictions - s.evictions == Evicted(cfg, s).startPos - s.startPos
  {
    UnitWithinVec(cfg);
    hide Shifted, Slot, Config.Slots, Config.Capacity, Config.Vec, Config.Unit, Bytes;
    var d := s.seqLen - cfg.window;
    var r := Slid(cfg, s, d);
    forall i: nat | i < r.seqLen
      ensures KeyAt(cfg, r, i) == tokens[r.startPos + i].key && ValueAt(cfg, r, i) == tokens[r.startPos + i].value
    {
      SlidSlot(cfg, s, d, i);
      assert KeyAt(cfg, s, d + i) == tokens[s.startPos + (d + i)].key;
    }
  }

  lemma SlidSlot<T(!new)>(cfg: Config, s: LayerState<T>, d: nat, i: nat)
    requires Fits(cfg, s) && cfg.Unit() == cfg.Vec() && d + cfg.window == s.seqLen && i < cfg.window
    ensures KeyAt(cfg, Slid(cfg, s, d), i) == KeyAt(cfg, s, d + i)
    ensures ValueAt(cfg, Slid(cfg, s, d), i) == ValueAt(cfg, s, d + i)
  {
    hide Shifted, Slot, Config.Slots, Config.Capacity, Config.Vec, Config.Unit, Bytes;
    SpanFits(cfg, d, cfg.window);
    SlotFits(cfg, i);
    SlotFits(cfg, d + i);
    SlotOfShift(s.keys, d, cfg.window, cfg.Vec(), i);
    SlotOfShift(s.values, d, cfg.window, cfg.Vec(), i);
  }

  /** How many tokens are stored before the first eviction. */
  function Full(cfg: Config): nat { Max(cfg.max, cfg.window + 1) }

  /** With a window shorter than the buffer's room, after n stores slot i holds the vectors of token
      start_pos + i, start_pos + seq_len = n, the tokens counted as evicted are exactly those before
      start_pos, and the length is n until the first eviction and window + 1 after. With 2-byte
      elements this holds up to the first eviction. */
  lemma {:induction false} SlidingWindowRefinesHistory<T(!new)>(cfg: Config, s0: LayerState<T>, tokens: seq<Token<T>>)
    requires ValidConfig(cfg) && SafeConfig(cfg) && cfg.eviction.Sliding? && |tokens| <= TWO32
    requires cfg.ElemSize() == 4 || |tokens| <= Full(cfg)
    requires Fits(cfg, s0) && s0.seqLen == s0.startPos == 0 && AllSized(cfg, tokens)
    ensures var result := Run(cfg, s0, InOrder(tokens));
      && result.Some? && HoldsSuffix(cfg, result.value, tokens)
      && result.value.evictions - s0.evictions == result.value.startPos
      && result.value.seqLen == (if |tokens| <= Full(cfg) then |tokens| else cfg.window + 1)
      && result.value.stores == s0.stores + |tokens|
  {
    hide Config.Slots, Config.Capacity, Config.Vec, Config.Unit, Stored, KeyAt, ValueAt, Step, Bytes;
    if tokens != [] {
      var n := |tokens| - 1;
      assert tokens == tokens[..n] + [tokens[n]];
      SlidingWindowRefinesHistory(cfg, s0, tokens[..n]);
      LastInOrder(cfg, s0, tokens);
      NextStore(cfg, Run(cfg, s0, InOrder(tokens[..n])).value, tokens[..n], tokens[n]);
    }
  }

  /** Whatever was stored before a reset, and whether or not it overflowed the window: what is stored in
      order afterwards is kept as if in a new cache. */
  lemma HistoryAfterReset<T(!new)>(cfg: Config, s: LayerState<T>, tokens: seq<Token<T>>)
    requires ValidConfig(cfg) && SafeConfig(cfg) && cfg.eviction.Sliding? && |tokens| <= TWO32
    requires cfg.ElemSize() == 4 || |tokens| <= Full(cfg)
    requires Fits(cfg, s) && AllSized(cfg, tokens)
    ensures var result := Run(cfg, Cleared(s), InOrder(tokens));
      && result.Some? && HoldsSuffix(cfg, result.value, tokens)
      && result.value.startPos + result.value.seqLen == |tokens|
      && result.value.evictions == s.evictions + result.value.startPos
      && result.value.stores == s.stores + |tokens|
  {
    SlidingWindowRefinesHistory(cfg, Cleared(s), tokens);
    hide Config.Slots, Config.Capacity, Config.Vec, Config.Unit, KeyAt, ValueAt, Run, Bytes;
  }

  /** The tokens whose keys and values stand in two lists of arrays. */
  ghost function TokensOf<T>(ks: seq<array<T>>, vs: seq<array<T>>): (tokens: seq<Token<T>>)
    requires |ks| == |vs|
    reads ks, vs
    ensures |tokens| == |ks|
  {
    seq(|ks|, i requires 0 <= i < |ks| reads ks, vs => Token(ks[i][..], vs[i][..]))
  }

  /** Resetting a cache and storing tokens in order into one of its layers: whatever it held before, the
      layer ends as the suffix of the new tokens. */
  method ResetAndStore<T(0,!new)>(cache: Cache<T>, layer: nat, ks: seq<array<T>>, vs: seq<array<T>>)
    requires cache.Valid() && cache.initialized && cache.enabled && layer < |cache.layers|
    requires SafeConfig(cache.cfg) && cache.cfg.eviction.Sliding? && cache.cfg.ElemSize() == 4
    requires |ks| == |vs| <= TWO32
    requires forall i :: 0 <= i < |ks| ==>
               && ks[i].Length == vs[i].Length == cache.cfg.Vec()
               && ks[i] !in cache.Repr() && vs[i] !in cache.Repr()
    modifies cache, cache.Repr()
    ensures cache.Valid() && cache.layers == old(cache.layers)
    ensures HoldsSuffix(cache.cfg, cache.LayerOf(layer), TokensOf(ks, vs))
    ensures cache.LayerOf(layer).seqLen
         == if |ks| <= Full(cache.cfg) then |ks| else cache.cfg.window + 1
  {
    ghost var cfg, tokens, before := cache.cfg, TokensOf(ks, vs), cache.LayerOf(layer);
    hide Config.Slots, Config.Capacity, Config.Vec, Config.Unit, Bytes, Fits, SafeConfig, Cache.Valid, Cache.Repr, Run;
    hide StoredSoFar, HoldsSuffix;
    ResetFor(cache, layer, tokens);
    StoreInOrder(cache, layer, ks, vs, before, tokens);
    AllStored(cfg, before, tokens, cache.LayerOf(layer));
  }

  method ResetFor<T(0,!new)>(cache: Cache<T>, layer: nat, ghost tokens: seq<Token<T>>)
    requires cache.Valid() && cache.initialized && layer < |cache.layers| && AllSized(cache.cfg, tokens)
    modifies cache, cache.Repr()
    ensures cache.Valid() && cache.layers == old(cache.layers)
    ensures cache.initialized && cache.enabled == old(cache.enabled)
    ensures StoredSoFar(cache.cfg, old(cache.LayerOf(layer)), tokens, 0, cache.LayerOf(layer))
  {
    hide Config.Slots, Config.Capacity, Config.Vec, Config.Unit, Bytes, Fits, StoredSoFar, Cache.Repr;
    hide Cleared, AllSized;
    cache.Reset();
    NoneStored(cache.cfg, old(cache.LayerOf(layer)), tokens);
  }

  method StoreInOrder<T(0,!new)>(cache: Cache<T>, layer: nat, ks: seq<array<T>>, vs: seq<array<T>>,
      ghost before: LayerState<T>, ghost tokens: seq<Token<T>>)
    requires cache.Valid() && cache.initialized && cache.enabled && layer < |cache.layers|
    requires SafeConfig(cache.cfg) && cache.cfg.eviction.Sliding? && |ks| == |vs| == |tokens| <= TWO32
    requires forall i :: 0 <= i < |ks| ==>
               && ks[i].Length == vs[i].Length == cache.cfg.Vec()
               && ks[i] !in cache.Repr() && vs[i] !in cache.Repr() && tokens[i] == Token(ks[i][..], vs[i][..])
    requires StoredSoFar(cache.cfg, before, tokens, 0, cache.LayerOf(layer))
    modifies cache, cache.Repr()
    ensures cache.Valid() && cache.layers == old(cache.layers)
    ensures StoredSoFar(cache.cfg, before, tokens, |tokens|, cache.LayerOf(layer))
  {
    hide Config.Slots, Config.Capacity, Config.Vec, Config.Unit, Bytes, Fits, SafeConfig, Cache.Valid, Cache.Repr;
    hide StoredSoFar;
    for i := 0 to |ks|
      invariant cache.Valid() && cache.layers == old(cache.layers) && cache.initialized && cache.enabled
      invariant StoredSoFar(cache.cfg, before, tokens, i, cache.LayerOf(layer))
    {
      StoreNext(cache, layer, i, ks[i], vs[i], before, tokens);
    }
  }

  /** `s` is the layer after i of the tokens, stored since the reset of `before`. */
  ghost predicate StoredSoFar<T(!new)>(cfg: Config, before: LayerState<T>, tokens: seq<Token<T>>, i: nat,
      s: LayerState<T>)
  {
    && ValidConfig(cfg) && Fits(cfg, before) && AllSized(cfg, tokens) && i <= |tokens|
    && Run(cfg, Cleared(before), InOrder(tokens[..i])) == Some(s)
  }

  method StoreNext<T(0,!new)>(cache: Cache<T>, layer: nat, i: nat, k: array<T>, v: array<T>,
      ghost before: LayerState<T>, ghost tokens: seq<Token<T>>)
    requires cache.Valid() && cache.initialized && cache.enabled && layer < |cache.layers|
    requires SafeConfig(cache.cfg) && cache.cfg.eviction.Sliding? && i < |tokens| <= TWO32
    requires k.Length == v.Length == cache.cfg.Vec() && k !in cache.Repr() && v !in cache.Repr()
    requires tokens[i] == Token(k[..], v[..])
    requires StoredSoFar(cache.cfg, before, tokens, i, cache.LayerOf(layer))
    modifies cache, cache.Repr()
    ensures cache.Valid() && cache.layers == old(cache.layers) && cache.initialized && cache.enabled
    ensures StoredSoFar(cache.cfg, before, tokens, i + 1, cache.LayerOf(layer))
  {
    hide Config.Slots, Config.Capacity, Config.Vec, Config.Unit, Bytes, Fits, SafeConfig, Cache.Valid, Cache.Repr;
    hide StoredSoFar, Stored;
    cache.InRepr(layer);
    ghost var key, value := k[..], v[..];
    var result := cache.Store(layer, i, k, v);
    assert k[..] == key && v[..] == value;
    StoredOneMore(cache.cfg, before, tokens, i, old(cache.LayerOf(layer)));
  }

  lemma NoneStored<T(!new)>(cfg: Config, before: LayerState<T>, tokens: seq<Token<T>>)
    requires ValidConfig(cfg) && Fits(cfg, before) && AllSized(cfg, tokens)
    ensures StoredSoFar(cfg, before, tokens, 0, Cleared(before))
  {
    assert InOrder(tokens[..0]) == [];
  }

  /** In a safe configuration the next store is accepted and stays inside. */
  lemma StoredOneMore<T(!new)>(cfg: Config, before: LayerState<T>, tokens: seq<Token<T>>, i: nat, s: LayerState<T>)
    requires StoredSoFar(cfg, before, tokens, i, s) && i < |tokens|
    requires SafeConfig(cfg) && cfg.eviction.Sliding?
    ensures Fits(cfg, s) && InBounds(cfg, s, i) && !Refused(cfg, i) && Sized(cfg, tokens[i])
    ensures StoredSoFar(cfg, before, tokens, i + 1, Stored(cfg, s, i, tokens[i].key, tokens[i].value))
  {
    hide Config.Slots, Config.Capacity, Config.Vec, Config.Unit, Stored, Bytes;
    SafeStep(cfg, s, Request(i, tokens[i]));
    LastInOrder(cfg, Cleared(before), tokens[..i + 1]);
    assert tokens[..i + 1][..i] == tokens[..i];
  }

  lemma SafeStep<T(!new)>(cfg: Config, s: LayerState<T>, r: Request<T>)
    requires ValidConfig(cfg) && SafeConfig(cfg) && cfg.eviction.Sliding? && Fits(cfg, s) && Sized(cfg, r.token)
    ensures InBounds(cfg, s, r.position) && !Refused(cfg, r.position)
    ensures Step(cfg, s, r) == Some(Stored(cfg, s, r.position, r.token.key, r.token.value))
  {
    hide Config.Slots, Config.Capacity, Config.Vec, Config.Unit, Stored, Bytes;
  }

  lemma AllStored<T(!new)>(cfg: Config, before: LayerState<T>, tokens: seq<Token<T>>, s: LayerState<T>)
    requires StoredSoFar(cfg, before, tokens, |tokens|, s) && SafeConfig(cfg) && cfg.eviction.Sliding?
    requires cfg.ElemSize() == 4 && |tokens| <= TWO32
    ensures Fits(cfg, s) && HoldsSuffix(cfg, s, tokens)
    ensures s.seqLen == if |tokens| <= Full(cfg) then |tokens| else cfg.window + 1
  {
    assert tokens[..|tokens|] == tokens;
    SlidingWindowRefinesHistory(cfg, Cleared(before), tokens);
    hide Config.Slots, Config.Capacity, Config.Vec, Config.Unit, KeyAt, ValueAt, Run, Bytes;
  }

  lemma LastInOrder<T(!new)>(cfg: Config, s0: LayerState<T>, tokens: seq<Token<T>>)
    requires ValidConfig(cfg) && Fits(cfg, s0) && AllSized(cfg, tokens) && tokens != []
    ensures var n := |tokens| - 1; var before := Run(cfg, s0, InOrder(tokens[..n]));
      before.Some? ==> Run(cfg, s0, InOrder(tokens)) == Step(cfg, before.value, Request(n, tokens[n]))
  {
    hide Step;
    var n, rs := |tokens| - 1, InOrder(tokens);
    assert rs[..n] == InOrder(tokens[..n]) && rs[n] == Request(n, tokens[n]);
  }

  /** One more store at position n. */
  lemma NextStore<T(!new)>(cfg: Config, s: LayerState<T>, tokens: seq<Token<T>>, t: Token<T>)
    requires ValidConfig(cfg) && SafeConfig(cfg) && cfg.eviction.Sliding? && |tokens| < TWO32
    requires cfg.ElemSize() == 4 || |tokens| < Full(cfg)
    requires Fits(cfg, s) && HoldsSuffix(cfg, s, tokens) && Sized(cfg, t)
    requires s.seqLen == if |tokens| <= Full(cfg) then |tokens| else cfg.window + 1
    ensures var r := Step(cfg, s, Request(|tokens|, t));
      && r.Some? && HoldsSuffix(cfg, r.value, tokens + [t])
      && r.value.evictions - s.evictions == r.value.startPos - s.startPos
      && r.value.seqLen == (if |tokens| + 1 <= Full(cfg) then |tokens| + 1 else cfg.window + 1)
      && r.value.stores == s.stores + 1
  {
    hide Config.Slots, Config.Capacity, Config.Vec, Config.Unit, HoldsSuffix, Evicted, Written, Step, Bytes;
    if |tokens| < cfg.max || |tokens| <= cfg.window {
      StoreAppends(cfg, s, |tokens|, t);
      AppendKeepsSuffix(cfg, s, tokens, t);
      WrittenFields(cfg, s, s.seqLen, t);
    } else {
      StoreEvicts(cfg, s, |tokens|, t);
      EvictKeepsSuffix(cfg, s, tokens);
      var e := Evicted(cfg, s);
      AppendKeepsSuffix(cfg, e, tokens, t);
      WrittenFields(cfg, e, cfg.window, t);
    }
  }

  /** A store behind the last slot that evicts nothing. */
  lemma StoreAppends<T(!new)>(cfg: Config, s: LayerState<T>, position: nat, t: Token<T>)
    requires ValidConfig(cfg) && Fits(cfg, s) && Sized(cfg, t) && cfg.eviction.Sliding?
    requires s.seqLen == position < cfg.Slots() && (position < cfg.max || position <= cfg.window)
    ensures Step(cfg, s, Request(position, t)) == Some(Written(cfg, s, s.seqLen, t.key, t.value))
  {
    hide Config.Slots, Config.Capacity, Config.Vec, Config.Unit, Written, Bytes;
  }

  /** A store past the end that evicts down to the window. */
  lemma StoreEvicts<T(!new)>(cfg: Config, s: LayerState<T>, position: nat, t: Token<T>)
    requires ValidConfig(cfg) && Fits(cfg, s) && Sized(cfg, t) && cfg.eviction.Sliding?
    requires 0 < cfg.window < s.seqLen && position >= cfg.max
    ensures var e := Evicted(cfg, s);
      && e == Slid(cfg, s, s.seqLen - cfg.window) && e.seqLen == cfg.window && e.stores == s.stores
      && e.startPos == (s.startPos + (s.seqLen - cfg.window)) % TWO32
      && Step(cfg, s, Request(position, t)) == Some(Written(cfg, e, cfg.window, t.key, t.value))
  {
    hide Config.Slots, Config.Capacity, Config.Vec, Config.Unit, Written, Shifted, Bytes;
  }

  lemma WrittenFields<T(!new)>(cfg: Config, s: LayerState<T>, slot: nat, t: Token<T>)
    requires Fits(cfg, s) && Sized(cfg, t) && slot < cfg.Slots()
    ensures var r := Written(cfg, s, slot, t.key, t.value);
      && r.seqLen == Max(s.seqLen, slot + 1) && r.stores == s.stores + 1
      && r.startPos == s.startPos && r.evictions == s.evictions
  {
    hide Config.Slots, Config.Capacity, Config.Vec, Config.Unit, Put, Bytes;
  }

  /** After any token sequence stored in order, the layer holds its suffix. */
  ghost predicate HoldsHistory<T(!new)>(cfg: Config, s0: LayerState<T>, tokens: seq<Token<T>>)
    requires ValidConfig(cfg) && Fits(cfg, s0) && AllSized(cfg, tokens)
  {
    var result := Run(cfg, s0, InOrder(tokens));
    result.Some? && HoldsSuffix(cfg, result.value, tokens)
  }

  /** The sliding cache is a suffix of every history if and only if its elements have 4 bytes. */
  lemma HistoryIff<T(!new)>(cfg: Config, s0: LayerState<T>, a: T, b: T)
    requires ValidConfig(cfg) && SafeConfig(cfg) && cfg.eviction.Sliding? && a != b
    requires Fits(cfg, s0) && s0.seqLen == s0.startPos == 0
    ensures cfg.ElemSize() == 4 <==>
      forall tokens: seq<Token<T>> :: AllSized(cfg, tokens) && |tokens| <= TWO32 ==> HoldsHistory(cfg, s0, tokens)
  {
    hide Config.Slots, Config.Capacity, Config.Vec, Config.Unit, HoldsSuffix, Run, Bytes;
    if cfg.ElemSize() == 4 {
      forall tokens: seq<Token<T>> | AllSized(cfg, tokens) && |tokens| <= TWO32 ensures HoldsHistory(cfg, s0, tokens) {
        SlidingWindowRefinesHistory(cfg, s0, tokens);
      }
    } else {
      HalfWidthLosesHistory(cfg, s0, a, b);
    }
  }

  /** Tokens of equal bytes, the first `count` of them made of `a` and the others of `b`. */
  function Marked<T(!new)>(cfg: Config, a: T, b: T, count: nat, n: nat): (tokens: seq<Token<T>>)
    ensures |tokens| == n && AllSized(cfg, tokens)
  {
    var first, other := seq(cfg.Vec(), _ => a), seq(cfg.Vec(), _ => b);
    seq(n, i => if i < count then Token(first, first) else Token(other, other))
  }

  lemma MarkedAt<T(!new)>(cfg: Config, a: T, b: T, count: nat, n: nat, i: nat, j: nat)
    requires i < n && j < cfg.Vec()
    ensures var key := Marked(cfg, a, b, count, n)[i].key; |key| == cfg.Vec() && key[j] == if i < count then a else b
  {
    hide Config.Vec, Config.Unit, Bytes;
  }

  /** With 2-byte elements the first eviction moves the data half as far as it should, so a byte of
      a dropped token stays at the front. */
  lemma HalfWidthLosesHistory<T(!new)>(cfg: Config, s0: LayerState<T>, a: T, b: T)
    requires ValidConfig(cfg) && SafeConfig(cfg) && cfg.eviction.Sliding? && a != b && cfg.ElemSize() == 2
    requires Fits(cfg, s0) && s0.seqLen == s0.startPos == 0
    ensures Full(cfg) < TWO32 && !HoldsHistory(cfg, s0, Marked(cfg, a, b, Full(cfg) - cfg.window, Full(cfg) + 1))
  {
    SlotsBound(cfg);
    hide Config.Slots, Config.Capacity, Config.Vec, Config.Unit, HoldsSuffix, Marked, Run, Fits, Bytes;
    var tokens := Marked(cfg, a, b, Full(cfg) - cfg.window, Full(cfg) + 1);
    SlidingWindowRefinesHistory(cfg, s0, tokens[..Full(cfg)]);
    var s := Run(cfg, s0, InOrder(tokens[..Full(cfg)])).value;
    EvictionLosesHistory(cfg, s0, s, tokens, a, b);
  }

  lemma EvictionLosesHistory<T(!new)>(cfg: Config, s0: LayerState<T>, s: LayerState<T>, tokens: seq<Token<T>>,
                                      a: T, b: T)
    requires ValidConfig(cfg) && SafeConfig(cfg) && cfg.eviction.Sliding? && a != b && cfg.ElemSize() == 2
    requires tokens == Marked(cfg, a, b, Full(cfg) - cfg.window, Full(cfg) + 1) && Full(cfg) < TWO32
    requires Fits(cfg, s0) && Run(cfg, s0, InOrder(tokens[..Full(cfg)])) == Some(s)
    requires s.startPos == 0 && s.seqLen == Full(cfg) && HoldsSuffix(cfg, s, tokens[..Full(cfg)])
    ensures !HoldsHistory(cfg, s0, tokens)
  {
    hide Config.Slots, Config.Capacity, Config.Vec, Config.Unit, Config.Dim, HoldsSuffix, Step, Marked, Written, Bytes;
    hide Evicted, Run, Slid, Fits, InOrder, Sized;
    LastInOrder(cfg, s0, tokens);
    StoreEvicts(cfg, s, Full(cfg), tokens[Full(cfg)]);
    FrontIsDropped(cfg, s, tokens, a, b);
  }

  /** After that eviction and store the layer is not the suffix. */
  lemma FrontIsDropped<T(!new)>(cfg: Config, s: LayerState<T>, tokens: seq<Token<T>>, a: T, b: T)
    requires ValidConfig(cfg) && SafeConfig(cfg) && cfg.eviction.Sliding? && a != b && cfg.ElemSize() == 2
    requires tokens == Marked(cfg, a, b, Full(cfg) - cfg.window, Full(cfg) + 1) && Full(cfg) < TWO32
    requires Fits(cfg, s) && s.startPos == 0 && s.seqLen == Full(cfg) && HoldsSuffix(cfg, s, tokens[..Full(cfg)])
    ensures var e, t := Slid(cfg, s, Full(cfg) - cfg.window), tokens[Full(cfg)];
      !HoldsSuffix(cfg, Written(cfg, e, cfg.window, t.key, t.value), tokens)
  {
    VecPositive(cfg);
    UnitWithinVec(cfg);
    hide Config.Slots, Config.Capacity, Config.Vec, Config.Unit, HoldsSuffix, Marked, Written, Bytes;
    var count, t := Full(cfg) - cfg.window, tokens[Full(cfg)];
    var e := Slid(cfg, s, count);
    assert e.startPos == count && e.seqLen == cfg.window;
    hide Slid;
    FrontByteStays(cfg, e, t);
    DroppedByte(cfg, s, tokens, a, b);
    var r := Written(cfg, e, cfg.window, t.key, t.value);
    WrittenFields(cfg, e, cfg.window, t);
    if HoldsSuffix(cfg, r, tokens) { FrontIsKept(cfg, r, tokens, a, b); }
  }

  /** The write behind the window leaves the first byte alone. */
  lemma FrontByteStays<T(!new)>(cfg: Config, e: LayerState<T>, t: Token<T>)
    requires Fits(cfg, e) && Sized(cfg, t) && 0 < cfg.window < cfg.Slots() && cfg.Vec() > 0
    ensures |e.keys| > 0 && Written(cfg, e, cfg.window, t.key, t.value).keys[0] == e.keys[0]
  {
    SlotFits(cfg, cfg.window);
    SomeBytes(cfg.window, cfg.Vec());
  }

  /** After the shift the first byte is one of a token that was counted as dropped. */
  lemma DroppedByte<T(!new)>(cfg: Config, s: LayerState<T>, tokens: seq<Token<T>>, a: T, b: T)
    requires 0 < cfg.window && cfg.Vec() == 2 * cfg.Unit() && cfg.Unit() > 0
    requires tokens == Marked(cfg, a, b, Full(cfg) - cfg.window, Full(cfg) + 1)
    requires Fits(cfg, s) && s.startPos == 0 && s.seqLen == Full(cfg) && HoldsSuffix(cfg, s, tokens[..Full(cfg)])
    ensures var e := Slid(cfg, s, Full(cfg) - cfg.window); |e.keys| > 0 && e.keys[0] == a
  {
    hide Config.Slots, Config.Capacity, Config.Vec, Config.Unit, HoldsSuffix, Marked, Slid, Slot, Bytes;
    var count := Full(cfg) - cfg.window;
    var h := count / 2;
    HalfWay(count, cfg.Unit(), cfg.Vec());
    KeyOf(cfg, s, tokens[..Full(cfg)], h);
    MarkedAt(cfg, a, b, count, Full(cfg) + 1, h, Bytes(count, cfg.Unit()) - Bytes(h, cfg.Vec()));
    FrontOfSlid(cfg, s, count, h);
  }

  /** The first byte after the shift, found in the slot it came from. */
  lemma FrontOfSlid<T(!new)>(cfg: Config, s: LayerState<T>, count: nat, h: nat)
    requires Fits(cfg, s) && count + cfg.window == s.seqLen && h < s.seqLen && 0 < cfg.window && cfg.Unit() > 0
    requires Bytes(h, cfg.Vec()) <= Bytes(count, cfg.Unit()) < Bytes(h, cfg.Vec()) + cfg.Vec()
    ensures |s.keys| > 0
    ensures Slid(cfg, s, count).keys[0] == KeyAt(cfg, s, h)[Bytes(count, cfg.Unit()) - Bytes(h, cfg.Vec())]
  {
    hide Config.Slots, Config.Capacity, Config.Vec, Config.Unit, Bytes, Shifted, Slot;
    ShiftFits(cfg, count, cfg.window);
    SlotFits(cfg, h);
    SomeBytes(cfg.window, cfg.Unit());
    var offset := Bytes(count, cfg.Unit());
    FrontOfShift(s.keys, offset, Bytes(cfg.window, cfg.Unit()));
    ByteOfSlot(s.keys, h, cfg.Vec(), offset - Bytes(h, cfg.Vec()));
  }

  lemma SomeBytes(n: nat, unit: nat)
    requires n > 0 && unit > 0
    ensures Bytes(n, unit) > 0
  {
  }

  lemma FrontOfShift<T>(buf: seq<T>, drop: nat, keep: nat)
    requires drop + keep <= |buf| && keep > 0
    ensures Shifted(buf, drop, keep)[0] == buf[drop]
  {
  }

  lemma ByteOfSlot<T>(buf: seq<T>, i: nat, vec: nat, k: nat)
    requires Bytes(i, vec) + vec <= |buf| && k < vec
    ensures Slot(buf, i, vec)[k] == buf[Bytes(i, vec) + k]
  {
    hide Bytes;
  }

  lemma HalfWay(count: nat, unit: nat, vec: nat)
    requires vec == 2 * unit && unit > 0
    ensures Bytes(count / 2, vec) <= Bytes(count, unit) < Bytes(count / 2, vec) + vec
  {
    assert count / 2 * vec == count / 2 * 2 * unit;
    assert count == count / 2 * 2 || count == count / 2 * 2 + 1;
  }

  lemma KeyOf<T(!new)>(cfg: Config, s: LayerState<T>, tokens: seq<Token<T>>, i: nat)
    requires Fits(cfg, s) && HoldsSuffix(cfg, s, tokens) && i < s.seqLen
    ensures KeyAt(cfg, s, i) == tokens[s.startPos + i].key
  {
  }

  /** A suffix of the history would begin with a byte of a token that was kept. */
  lemma FrontIsKept<T(!new)>(cfg: Config, r: LayerState<T>, tokens: seq<Token<T>>, a: T, b: T)
    requires Fits(cfg, r) && HoldsSuffix(cfg, r, tokens) && cfg.Vec() > 0 && 0 < r.seqLen
    requires tokens == Marked(cfg, a, b, Full(cfg) - cfg.window, Full(cfg) + 1) && r.startPos == Full(cfg) - cfg.window
    ensures |r.keys| > 0 && r.keys[0] == b
  {
    assert Bytes(0, cfg.Vec()) == 0;
    hide Config.Slots, Config.Capacity, Config.Vec, Config.Unit, HoldsSuffix, Marked, Bytes;
    MarkedAt(cfg, a, b, Full(cfg) - cfg.window, Full(cfg) + 1, r.startPos, 0);
    KeyOf(cfg, r, tokens, 0);
    SlotFits(cfg, 0);
    assert KeyAt(cfg, r, 0)[0] == r.keys[0];
  }

  lemma SlotsBound(cfg: Config)
    requires ValidConfig(cfg)
    ensures cfg.Slots() < 32768 + PAGE
  {
    VecPositive(cfg);
    UnitWithinVec(cfg);
    SlotsFit(cfg);
    AlignUpBounds(Bytes(cfg.max, cfg.Unit()), PAGE);
    hide Config.Slots, Config.Vec, Config.Unit, AlignUp, Bytes;
    LargerUnits(cfg.max, cfg.Unit(), cfg.Vec());
    if cfg.Slots() >= cfg.max + PAGE {
      MoreBytes(cfg.max + PAGE, cfg.Slots(), cfg.Vec());
      AddBytes(cfg.max, PAGE, cfg.Vec());
    }
  }

  /** What the readers copy out after such a run: the i-th vectors are those of token
      start_pos + first + i. */
  lemma ReadersSeeHistory<T(!new)>(cfg: Config, s: LayerState<T>, tokens: seq<Token<T>>, first: nat, n: nat,
                                   before: seq<T>, ks: seq<T>, vs: seq<T>, i: nat)
    requires Fits(cfg, s) && HoldsSuffix(cfg, s, tokens) && first + n <= s.seqLen && i < n
    requires ReadBack(cfg, s.keys, first, n, before, ks) && ReadBack(cfg, s.values, first, n, before, vs)
    ensures Bytes(i, cfg.Vec()) + cfg.Vec() <= |ks| == |vs|
    ensures Slot(ks, i, cfg.Vec()) == tokens[s.startPos + first + i].key
    ensures Slot(vs, i, cfg.Vec()) == tokens[s.startPos + first + i].value
  {
    hide Config.Slots, Config.Capacity, Config.Vec, Config.Unit, Put, Slot, Bytes;
    SlotOfCopy(before, s.keys, first, n, cfg.Vec(), i);
    SlotOfCopy(before, s.values, first, n, cfg.Vec(), i);
    assert KeyAt(cfg, s, first + i) == tokens[s.startPos + (first + i)].key;
  }

  lemma SlotOfCopy<T>(before: seq<T>, buf: seq<T>, first: nat, n: nat, vec: nat, i: nat)
    requires Bytes(first, vec) + Bytes(n, vec) <= |buf| && Bytes(n, vec) <= |before| && i < n
    ensures Bytes(i, vec) + vec <= |before| && Bytes(first + i, vec) + vec <= |buf|
    ensures Slot(Put(before, 0, buf[Bytes(first, vec)..Bytes(first, vec) + Bytes(n, vec)]), i, vec)
      == Slot(buf, first + i, vec)
  {
    hide Put, Bytes;
    SlotInside(i, n, vec);
    AddBytes(first, i, vec);
    PartOfCopy(before, buf, Bytes(first, vec), Bytes(n, vec), Bytes(i, vec), vec);
  }

  lemma PartOfCopy<T>(before: seq<T>, buf: seq<T>, offset: nat, bytes: nat, from: nat, n: nat)
    requires offset + bytes <= |buf| && bytes <= |before| && from + n <= bytes
    ensures Put(before, 0, buf[offset..offset + bytes])[from..from + n] == buf[offset + from..offset + from + n]
  {
    var copied := buf[offset..offset + bytes];
    assert before[..0] + copied + before[bytes..] == copied + before[bytes..];
    FrontOf(copied, before[bytes..], from, n);
    SliceOfSlice(buf, offset, offset + bytes, from, n);
  }

  // ------------------------------------------------------------------ batches

  /** The concatenation of a token sequence's keys, as a batch call receives them. */
  function AllKeys<T>(tokens: seq<Token<T>>): seq<T> {
    if tokens == [] then [] else AllKeys(tokens[..|tokens| - 1]) + tokens[|tokens| - 1].key
  }

  function AllValues<T>(tokens: seq<Token<T>>): seq<T> {
    if tokens == [] then [] else AllValues(tokens[..|tokens| - 1]) + tokens[|tokens| - 1].value
  }

  lemma {:induction false} BatchLengths<T(!new)>(cfg: Config, tokens: seq<Token<T>>)
    requires AllSized(cfg, tokens)
    ensures |AllKeys(tokens)| == |AllValues(tokens)| == Bytes(|tokens|, cfg.Vec())
  {
    if tokens != [] {
      BatchLengths(cfg, tokens[..|tokens| - 1]);
      OneMore(|tokens| - 1, cfg.Vec());
    }
  }

  /** The same tokens stored one by one from `first`. */
  function OneByOne<T(!new)>(cfg: Config, s: LayerState<T>, first: nat, tokens: seq<Token<T>>): (r: LayerState<T>)
    requires ValidConfig(cfg) && Fits(cfg, s) && AllSized(cfg, tokens)
    requires first + |tokens| <= cfg.max && first + |tokens| <= cfg.Slots()
    ensures Fits(cfg, r)
  {
    if tokens == [] then s
    else
      var n := |tokens| - 1;
      Stored(cfg, OneByOne(cfg, s, first, tokens[..n]), first + n, tokens[n].key, tokens[n].value)
  }

  /** A batch inside the buffer is the same as its tokens stored one at a time. */
  lemma {:induction false} BatchIsStores<T(!new)>(cfg: Config, s: LayerState<T>, first: nat, tokens: seq<Token<T>>)
    requires ValidConfig(cfg) && Fits(cfg, s) && tokens != [] && AllSized(cfg, tokens)
    requires first + |tokens| <= cfg.max && first + |tokens| <= cfg.Slots()
    ensures |AllKeys(tokens)| == |AllValues(tokens)| == Bytes(|tokens|, cfg.Vec())
    ensures BatchStored(cfg, s, first, |tokens|, AllKeys(tokens), AllValues(tokens)) == OneByOne(cfg, s, first, tokens)
  {
    hide Put, BatchStored, Stored, Fits, Config.Slots, Config.Capacity, Config.Vec, Config.Unit, Bytes;
    BatchLengths(cfg, tokens);
    var n := |tokens| - 1;
    var init, t := tokens[..n], tokens[n];
    if n == 0 {
      OneInBatch(cfg, s, first, t);
      assert AllKeys(init) == AllValues(init) == [] && OneByOne(cfg, s, first, init) == s;
      assert AllKeys(tokens) == t.key && AllValues(tokens) == t.value;
    } else {
      BatchIsStores(cfg, s, first, init);
      BatchGrows(cfg, s, first, n, AllKeys(init), AllValues(init), t);
    }
  }

  lemma OneInBatch<T(!new)>(cfg: Config, s: LayerState<T>, first: nat, t: Token<T>)
    requires ValidConfig(cfg) && Fits(cfg, s) && first < cfg.max && first < cfg.Slots() && Sized(cfg, t)
    ensures BatchStored(cfg, s, first, 1, t.key, t.value) == Stored(cfg, s, first, t.key, t.value)
  {
    hide Put, Evicted, Config.Slots, Config.Capacity, Config.Vec, Config.Unit, Bytes;
    SlotFits(cfg, first);
  }

  /** A batch one token longer is the batch followed by one store. */
  lemma BatchGrows<T(!new)>(cfg: Config, s: LayerState<T>, first: nat, n: nat, ks: seq<T>, vs: seq<T>, t: Token<T>)
    requires ValidConfig(cfg) && Fits(cfg, s) && first + n < cfg.max && first + n < cfg.Slots()
    requires |ks| == |vs| == Bytes(n, cfg.Vec()) && Sized(cfg, t)
    ensures |ks + t.key| == |vs + t.value| == Bytes(n + 1, cfg.Vec())
    ensures BatchStored(cfg, s, first, n + 1, ks + t.key, vs + t.value)
         == Stored(cfg, BatchStored(cfg, s, first, n, ks, vs), first + n, t.key, t.value)
  {
    hide Put, Evicted, Config.Slots, Config.Capacity, Config.Vec, Config.Unit, Bytes;
    OneMore(n, cfg.Vec());
    AddBytes(first, n, cfg.Vec());
    SpanFits(cfg, first, n + 1);
    PutPut(s.keys, Bytes(first, cfg.Vec()), ks, t.key);
    PutPut(s.values, Bytes(first, cfg.Vec()), vs, t.value);
  }

  lemma PutPut<T>(buf: seq<T>, offset: nat, a: seq<T>, b: seq<T>)
    requires offset + |a| + |b| <= |buf|
    ensures Put(Put(buf, offset, a), offset + |a|, b) == Put(buf, offset, a + b)
  {
  }
}
