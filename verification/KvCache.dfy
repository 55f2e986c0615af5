/**
 The key/value cache of the attention layers: what one store, one eviction and one reset do
 to a layer. Buffers are sequences of bytes. Stores and reads see a buffer as vectors of
 4-byte floats, whatever the configured element type: slot i is the i-th run of `Vec` bytes.
 The allocation and the eviction shift count in elements of the configured type.
 */
module KvCache {

  const TWO32: nat := 0x1_0000_0000
  const PAGE: nat := 4096

  datatype Policy = NoEviction | Sliding | Ring | Attention

  datatype ElemType = Float32 | Fixed32 | Float16

  /** `heads` vectors of `headDim` elements per token; `max` and `window` count tokens. */
  datatype Config = Config(
    layers: nat, heads: nat, headDim: nat, max: nat, window: nat, elem: ElemType, eviction: Policy)
  {
    function ElemSize(): nat { if elem.Float16? then 2 else 4 }

    /** The elements of one token. */
    function Dim(): nat { heads * headDim }

    /** The bytes that a store of one token writes and a read of one copies. */
    function Vec(): nat { 4 * Dim() }

    /** The bytes that the allocation and the eviction reckon for one token. */
    function Unit(): nat { ElemSize() * Dim() }

    /** The bytes of each buffer: `max` tokens, rounded up to whole pages. */
    function Capacity(): nat { AlignUp(Bytes(max, Unit()), PAGE) }

    /** How many stored vectors a buffer has room for. */
    function Slots(): nat { WholeIn(Capacity(), Vec()) }
  }

  function AlignUp(x: nat, align: nat): nat
    requires align > 0
  {
    (x + align - 1) / align * align
  }

  /** The bytes of `n` units. */
  function Bytes(n: nat, unit: nat): nat { n * unit }

  function WholeIn(bytes: nat, unit: nat): nat { if unit == 0 then 0 else bytes / unit }

  /** The configurations `kv_cache_create` accepts. */
  predicate ValidConfig(cfg: Config) {
    0 < cfg.layers <= 128 && 0 < cfg.heads <= 256 && 0 < cfg.headDim <= 512 && 0 < cfg.max <= 32768
  }

  datatype LayerState<T> =
    LayerState(keys: seq<T>, values: seq<T>, seqLen: nat, startPos: nat, evictions: nat, stores: nat, hits: nat)

  predicate Fits<T(!new)>(cfg: Config, s: LayerState<T>) {
    |s.keys| == |s.values| == cfg.Capacity() && s.seqLen <= cfg.Slots()
  }

  function Max(a: nat, b: nat): nat { if a < b then b else a }

  // ------------------------------------------------------------------ slots

  lemma MoreBytes(m: nat, n: nat, unit: nat)
    requires m <= n
    ensures Bytes(m, unit) <= Bytes(n, unit)
  {
    assert (n - m) * unit >= 0;
  }

  lemma LargerUnits(n: nat, a: nat, b: nat)
    requires a <= b
    ensures Bytes(n, a) <= Bytes(n, b)
  {
  }

  lemma AddBytes(m: nat, n: nat, unit: nat)
    ensures Bytes(m + n, unit) == Bytes(m, unit) + Bytes(n, unit)
  {
  }

  lemma OneMore(n: nat, unit: nat)
    ensures Bytes(n + 1, unit) == Bytes(n, unit) + unit
  {
  }

  lemma SlotInside(i: nat, n: nat, vec: nat)
    requires i < n
    ensures Bytes(i, vec) + vec <= Bytes(n, vec)
  {
    OneMore(i, vec);
    MoreBytes(i + 1, n, vec);
  }

  /** Rounding up adds less than one page. */
  lemma AlignUpBounds(x: nat, align: nat)
    requires align > 0
    ensures x <= AlignUp(x, align) < x + align
  {
  }

  lemma SlotsFit(cfg: Config)
    ensures Bytes(cfg.Slots(), cfg.Vec()) <= cfg.Capacity()
    ensures cfg.Vec() > 0 ==> cfg.Capacity() < Bytes(cfg.Slots(), cfg.Vec()) + cfg.Vec()
  {
    hide Config.Capacity, Config.Vec, Config.Unit;
  }

  /** `n` vectors from slot `first` on lie in the buffer. */
  lemma SpanFits(cfg: Config, first: nat, n: nat)
    requires first + n <= cfg.Slots()
    ensures Bytes(first, cfg.Vec()) + Bytes(n, cfg.Vec()) <= cfg.Capacity()
  {
    hide Config.Slots, Config.Capacity, Config.Vec, Config.Unit, Bytes;
    SlotsFit(cfg);
    AddBytes(first, n, cfg.Vec());
    MoreBytes(first + n, cfg.Slots(), cfg.Vec());
  }

  lemma SlotFits(cfg: Config, i: nat)
    requires i < cfg.Slots()
    ensures Bytes(i, cfg.Vec()) + cfg.Vec() <= cfg.Capacity()
  {
    hide Config.Slots, Config.Capacity, Config.Vec, Config.Unit, Bytes;
    SlotsFit(cfg);
    SlotInside(i, cfg.Slots(), cfg.Vec());
  }

  /** The eviction shift stays in the buffer: its unit is at most a stored vector. */
  lemma ShiftFits(cfg: Config, d: nat, w: nat)
    requires d + w <= cfg.Slots()
    ensures Bytes(d, cfg.Unit()) + Bytes(w, cfg.Unit()) <= cfg.Capacity()
  {
    UnitWithinVec(cfg);
    hide Config.Slots, Config.Capacity, Config.Vec, Config.Unit, Bytes;
    SpanFits(cfg, d, w);
    LargerUnits(d, cfg.Unit(), cfg.Vec());
    LargerUnits(w, cfg.Unit(), cfg.Vec());
  }

  lemma UnitWithinVec(cfg: Config)
    ensures cfg.Unit() <= cfg.Vec()
    ensures cfg.ElemSize() == 4 ==> cfg.Unit() == cfg.Vec()
    ensures cfg.ElemSize() == 2 ==> cfg.Vec() == 2 * cfg.Unit()
  {
    hide Config.Dim;
  }

  function Slot<T>(buf: seq<T>, i: nat, vec: nat): (r: seq<T>)
    requires Bytes(i, vec) + vec <= |buf|
    ensures |r| == vec
  {
    buf[Bytes(i, vec)..Bytes(i, vec) + vec]
  }

  /** Copying `v` over the buffer at byte `offset`. */
  function Put<T>(buf: seq<T>, offset: nat, v: seq<T>): (r: seq<T>)
    requires offset + |v| <= |buf|
    ensures |r| == |buf|
  {
    buf[..offset] + v + buf[offset + |v|..]
  }

  /** Moving `keep` bytes from `drop` to the front. */
  function Shifted<T>(buf: seq<T>, drop: nat, keep: nat): (r: seq<T>)
    requires drop + keep <= |buf|
    ensures |r| == |buf|
  {
    buf[drop..drop + keep] + buf[keep..]
  }

  lemma SlotOfPut<T>(buf: seq<T>, i: nat, v: seq<T>, j: nat)
    requires Bytes(i, |v|) + |v| <= |buf| && Bytes(j, |v|) + |v| <= |buf|
    ensures Slot(Put(buf, Bytes(i, |v|), v), j, |v|) == if i == j then v else Slot(buf, j, |v|)
  {
    hide Put, Bytes;
    if j < i { SlotInside(j, i, |v|); }
    if i < j { SlotInside(i, j, |v|); }
    PartOfPut(buf, Bytes(i, |v|), v, Bytes(j, |v|), |v|);
  }

  /** A part of the buffer that the copy covers, or does not touch. */
  lemma PartOfPut<T>(buf: seq<T>, offset: nat, v: seq<T>, from: nat, n: nat)
    requires offset + |v| <= |buf| && from + n <= |buf|
    ensures from + n <= offset || offset + |v| <= from ==> Put(buf, offset, v)[from..from + n] == buf[from..from + n]
    ensures from == offset && n == |v| ==> Put(buf, offset, v)[from..from + n] == v
  {
  }

  lemma SlotOfShift<T>(buf: seq<T>, d: nat, w: nat, vec: nat, i: nat)
    requires Bytes(d, vec) + Bytes(w, vec) <= |buf| && i < w
    requires Bytes(i, vec) + vec <= |buf| && Bytes(d + i, vec) + vec <= |buf|
    ensures Slot(Shifted(buf, Bytes(d, vec), Bytes(w, vec)), i, vec) == Slot(buf, d + i, vec)
  {
    hide Shifted, Bytes;
    SlotInside(i, w, vec);
    AddBytes(d, i, vec);
    PartOfShift(buf, Bytes(d, vec), Bytes(w, vec), Bytes(i, vec), vec);
  }

  lemma PartOfShift<T>(buf: seq<T>, drop: nat, keep: nat, from: nat, n: nat)
    requires drop + keep <= |buf| && from + n <= keep
    ensures Shifted(buf, drop, keep)[from..from + n] == buf[drop + from..drop + from + n]
  {
    var moved := buf[drop..drop + keep];
    FrontOf(moved, buf[keep..], from, n);
    SliceOfSlice(buf, drop, drop + keep, from, n);
  }

  lemma FrontOf<T>(a: seq<T>, b: seq<T>, from: nat, n: nat)
    requires from + n <= |a|
    ensures (a + b)[from..from + n] == a[from..from + n]
  {
  }

  lemma SliceOfSlice<T>(buf: seq<T>, lo: nat, hi: nat, from: nat, n: nat)
    requires lo <= hi <= |buf| && from + n <= hi - lo
    ensures buf[lo..hi][from..from + n] == buf[lo + from..lo + from + n]
  {
    var part, direct := buf[lo..hi][from..from + n], buf[lo + from..lo + from + n];
    forall i | 0 <= i < n ensures part[i] == direct[i] { }
  }

  // ------------------------------------------------------------------ one layer

  /** How many tokens `kv_apply_eviction` counts as dropped; 0 where it returns early. */
  function EvictCount<T>(cfg: Config, s: LayerState<T>): nat {
    if cfg.window == 0 || cfg.eviction.NoEviction? || s.seqLen <= cfg.window then 0 else s.seqLen - cfg.window
  }

  /** The layer after `kv_apply_eviction`. Only the sliding policy moves data. */
  function Evicted<T(!new)>(cfg: Config, s: LayerState<T>): (r: LayerState<T>)
    requires ValidConfig(cfg) && Fits(cfg, s)
    ensures Fits(cfg, r)
  {
    var count := EvictCount(cfg, s);
    if count == 0 then s
    else if cfg.eviction.Sliding? then Slid(cfg, s, count)
    else if cfg.eviction.Ring? then
      s.(startPos := (s.startPos + count) % cfg.max, evictions := s.evictions + count)
    else s
  }

  /** What each policy does to a layer with more tokens than its window: the sliding one cuts it to the
      window, the ring only moves the start, and by attention score nothing happens at all; every one of
      them counts the surplus for the whole cache. In any other layer nothing is evicted or counted. */
  lemma EvictionCases<T(!new)>(cfg: Config, s: LayerState<T>)
    requires ValidConfig(cfg) && Fits(cfg, s)
    ensures var (e, surplus) := (Evicted(cfg, s), s.seqLen - cfg.window);
      && e.stores == s.stores && e.hits == s.hits
      && (cfg.window == 0 || cfg.eviction.NoEviction? || surplus <= 0 ==> e == s && EvictCount(cfg, s) == 0)
      && (cfg.window > 0 && !cfg.eviction.NoEviction? && surplus > 0 ==>
            && EvictCount(cfg, s) == surplus
            && match cfg.eviction
               case Sliding => e.seqLen == cfg.window && e.startPos == (s.startPos + surplus) % TWO32 &&
                               e.evictions == s.evictions + surplus
               case Ring => e.keys == s.keys && e.values == s.values && e.seqLen == s.seqLen &&
                            e.startPos == (s.startPos + surplus) % cfg.max && e.evictions == s.evictions + surplus
               case _ => e == s)
  {
    hide Config.Slots, Config.Capacity, Config.Unit, Shifted, Bytes;
  }

  /** The sliding eviction of `count` tokens. */
  function Slid<T(!new)>(cfg: Config, s: LayerState<T>, count: nat): (r: LayerState<T>)
    requires Fits(cfg, s) && count + cfg.window == s.seqLen
    ensures Fits(cfg, r)
  {
    ShiftFits(cfg, count, cfg.window);
    s.(keys := Shifted(s.keys, Bytes(count, cfg.Unit()), Bytes(cfg.window, cfg.Unit())),
       values := Shifted(s.values, Bytes(count, cfg.Unit()), Bytes(cfg.window, cfg.Unit())),
       seqLen := cfg.window,
       startPos := (s.startPos + count) % TWO32,
       evictions := s.evictions + count)
  }

  /** A position past the end is refused only when nothing may be evicted. */
  predicate Refused(cfg: Config, position: nat) { position >= cfg.max && cfg.eviction.NoEviction? }

  /** The layer that a store at `position` is about to write: evicted from if the position is past the end. */
  function Prepared<T(!new)>(cfg: Config, s: LayerState<T>, position: nat): (r: LayerState<T>)
    requires ValidConfig(cfg) && Fits(cfg, s)
    ensures Fits(cfg, r)
  {
    if position < cfg.max then s else Evicted(cfg, s)
  }

  /** The slot a store writes: the position itself, or the end of what eviction leaves. */
  function Target<T(!new)>(cfg: Config, s: LayerState<T>, position: nat): nat
    requires ValidConfig(cfg) && Fits(cfg, s)
  {
    if position < cfg.max then position else Evicted(cfg, s).seqLen
  }

  /** What the source never checks: the vector written ends inside the buffer. */
  predicate InBounds<T(!new)>(cfg: Config, s: LayerState<T>, position: nat)
    requires ValidConfig(cfg) && Fits(cfg, s)
  {
    Refused(cfg, position) || Target(cfg, s, position) < cfg.Slots()
  }

  /** The layer after an accepted store. */
  function Stored<T(!new)>(cfg: Config, s: LayerState<T>, position: nat, key: seq<T>, value: seq<T>): (r: LayerState<T>)
    requires ValidConfig(cfg) && Fits(cfg, s) && |key| == |value| == cfg.Vec()
    requires !Refused(cfg, position) && InBounds(cfg, s, position)
    ensures Fits(cfg, r)
  {
    Written(cfg, Prepared(cfg, s, position), Target(cfg, s, position), key, value)
  }

  /** Both vectors copied into one slot, the length raised to cover it. */
  function Written<T(!new)>(cfg: Config, s: LayerState<T>, slot: nat, key: seq<T>, value: seq<T>): (r: LayerState<T>)
    requires Fits(cfg, s) && |key| == |value| == cfg.Vec() && slot < cfg.Slots()
    ensures Fits(cfg, r)
  {
    SlotFits(cfg, slot);
    s.(keys := Put(s.keys, Bytes(slot, cfg.Vec()), key),
       values := Put(s.values, Bytes(slot, cfg.Vec()), value),
       seqLen := Max(s.seqLen, slot + 1),
       stores := s.stores + 1)
  }

  // ------------------------------------------------------------------ the mutable cache

  /** The byte loop of the sliding eviction: an overlapping copy to the left, both buffers at once. */
  method ShiftLeft<T>(k: array<T>, v: array<T>, drop: nat, keep: nat)
    requires k != v && drop + keep <= k.Length == v.Length
    modifies k, v
    ensures k[..] == Shifted(old(k[..]), drop, keep)
    ensures v[..] == Shifted(old(v[..]), drop, keep)
  {
    for i := 0 to keep
      invariant forall j :: 0 <= j < i ==> k[j] == old(k[drop + j]) && v[j] == old(v[drop + j])
      invariant forall j :: i <= j < k.Length ==> k[j] == old(k[j]) && v[j] == old(v[j])
    {
      k[i] := k[drop + i];
      v[i] := v[drop + i];
    }
  }

  /** One more byte copied behind those of `v`. */
  lemma PutOneMore<T>(buf: seq<T>, offset: nat, v: seq<T>, x: T, before: seq<T>, after: seq<T>)
    requires offset + |v| < |buf| && before == Put(buf, offset, v) && after == before[offset + |v| := x]
    ensures after == Put(buf, offset, v + [x])
  {
  }

  lemma PutNothing<T>(buf: seq<T>, offset: nat)
    requires offset <= |buf|
    ensures Put(buf, offset, []) == buf
  {
  }

  lemma NextByte<T>(s: seq<T>, from: nat, i: nat)
    requires from + i < |s|
    ensures s[from..from + i + 1] == s[from..from + i] + [s[from + i]]
  {
  }

  /** `kv_memcpy` of a part of one buffer into a part of another. */
  method CopyInto<T>(dst: array<T>, offset: nat, src: array<T>, from: nat, n: nat)
    requires dst != src && offset + n <= dst.Length && from + n <= src.Length
    modifies dst
    ensures dst[..] == Put(old(dst[..]), offset, src[from..from + n])
  {
    hide Put;
    ghost var was, bytes := dst[..], src[..];
    PutNothing(was, offset);
    assert bytes[from..from + 0] == [];
    for i := 0 to n
      invariant dst[..] == Put(was, offset, bytes[from..from + i])
    {
      ghost var before := dst[..];
      dst[offset + i] := src[from + i];
      PutOneMore(was, offset, bytes[from..from + i], bytes[from + i], before, dst[..]);
      NextByte(bytes, from, i);
    }
  }

  class Layer<T(0,!new)> {
    const keys: array<T>
    const values: array<T>
    var seqLen: nat
    var startPos: nat
    var evictions: nat
    var stores: nat
    var hits: nat

    constructor (cfg: Config)
      ensures Valid(cfg) && fresh(keys) && fresh(values)
      ensures seqLen == startPos == evictions == stores == hits == 0
    {
      keys := new T[cfg.Capacity()];
      values := new T[cfg.Capacity()];
      seqLen, startPos, evictions, stores, hits := 0, 0, 0, 0, 0;
    }

    ghost function Footprint(): set<object> { {this, keys, values} }

    ghost function State(): LayerState<T>
      reads this, keys, values
    {
      LayerState(keys[..], values[..], seqLen, startPos, evictions, stores, hits)
    }

    ghost predicate Valid(cfg: Config)
      reads this, keys, values
    {
      keys != values && Fits(cfg, State())
    }

    method Clear(cfg: Config)
      requires Valid(cfg)
      modifies `seqLen, `startPos
      ensures Valid(cfg) && State() == Cleared(old(State())) && seqLen == 0
    {
      seqLen := 0;
      startPos := 0;
    }

    method ReadKeys(cfg: Config, first: nat, n: nat, output: array<T>)
      requires Valid(cfg) && first + n <= seqLen && output.Length >= Bytes(n, cfg.Vec()) && output !in Footprint()
      modifies `hits, output
      ensures Valid(cfg) && State() == old(State()).(hits := old(hits) + n) && seqLen == old(seqLen)
      ensures ReadBack(cfg, old(keys[..]), first, n, old(output[..]), output[..])
    {
      InLength(cfg, first, n);
      CopyInto(output, 0, keys, Bytes(first, cfg.Vec()), Bytes(n, cfg.Vec()));
      hits := hits + n;
    }

    lemma InLength(cfg: Config, first: nat, n: nat)
      requires Valid(cfg) && first + n <= seqLen
      ensures Bytes(first, cfg.Vec()) + Bytes(n, cfg.Vec()) <= keys.Length == values.Length
    {
      SpanFits(cfg, first, n);
    }

    /** `kv_apply_eviction`; the result is what it adds to the cache-wide counter. */
    method ApplyEviction(cfg: Config) returns (count: nat)
      requires ValidConfig(cfg) && Valid(cfg)
      modifies this, keys, values
      ensures Valid(cfg) && State() == Evicted(cfg, old(State()))
      ensures count == EvictCount(cfg, old(State())) && seqLen <= old(seqLen)
    {
      hide Slid, Config.Capacity, Config.Slots, Bytes;
      if cfg.window == 0 || cfg.eviction.NoEviction? { return 0; }
      if seqLen <= cfg.window { return 0; }
      count := seqLen - cfg.window;
      match cfg.eviction {
        case Sliding => Slide(cfg, count);
        case Ring => Turn(cfg, count);
        case Attention =>
      }
    }

    /** The sliding case: the vectors kept move to the front. */
    method Slide(cfg: Config, count: nat)
      requires Valid(cfg) && count + cfg.window == seqLen
      modifies this, keys, values
      ensures Valid(cfg) && State() == Slid(cfg, old(State()), count) && seqLen <= old(seqLen)
    {
      ShiftFits(cfg, count, cfg.window);
      hide Config.Capacity, Config.Slots, Config.Unit, Shifted, Bytes;
      ShiftLeft(keys, values, Bytes(count, cfg.Unit()), Bytes(cfg.window, cfg.Unit()));
      seqLen := cfg.window;
      startPos := (startPos + count) % TWO32;
      evictions := evictions + count;
    }

    /** The ring case: only the start position moves. */
    method Turn(cfg: Config, count: nat)
      requires Valid(cfg) && cfg.max > 0
      modifies `startPos, `evictions
      ensures Valid(cfg)
      ensures State()
           == old(State()).(startPos := (old(startPos) + count) % cfg.max, evictions := old(evictions) + count)
    {
      startPos := (startPos + count) % cfg.max;
      evictions := evictions + count;
    }

    /** `kv_cache_store_f32` once the position is accepted: what it evicts, and whether the write
        that follows ends inside the buffer. */
    method Store(cfg: Config, position: nat, key: array<T>, value: array<T>) returns (inside: bool, evicted: nat)
      requires ValidConfig(cfg) && Valid(cfg) && key.Length == value.Length == cfg.Vec() && {key, value} !! Footprint()
      requires !Refused(cfg, position)
      modifies this, keys, values
      ensures Valid(cfg) && inside == InBounds(cfg, old(State()), position)
      ensures inside ==> State() == Stored(cfg, old(State()), position, key[..], value[..])
      ensures !inside ==> State() == Prepared(cfg, old(State()), position) && seqLen <= old(seqLen)
      ensures evicted == if position < cfg.max then 0 else EvictCount(cfg, old(State()))
    {
      hide EvictCount, Written, Evicted, Config.Vec, Config.Unit, Config.Slots, Config.Capacity, ValidConfig, Bytes;
      var slot := position;
      evicted := 0;
      if position >= cfg.max {
        evicted := ApplyEviction(cfg);
        slot := seqLen;
      }
      inside := slot < cfg.Slots();
      if inside { Write(cfg, slot, key, value); }
    }

    method Write(cfg: Config, slot: nat, key: array<T>, value: array<T>)
      requires Valid(cfg) && key.Length == value.Length == cfg.Vec() && {key, value} !! Footprint()
      requires slot < cfg.Slots()
      modifies this, keys, values
      ensures Valid(cfg) && State() == Written(cfg, old(State()), slot, key[..], value[..])
    {
      hide Put, Config.Vec, Config.Unit, Config.Slots, Config.Capacity, Bytes;
      SlotFits(cfg, slot);
      CopyInto(keys, Bytes(slot, cfg.Vec()), key, 0, cfg.Vec());
      CopyInto(values, Bytes(slot, cfg.Vec()), value, 0, cfg.Vec());
      assert key[0..cfg.Vec()] == key[..] && value[0..cfg.Vec()] == value[..];
      if slot >= seqLen { seqLen := slot + 1; }
      stores := stores + 1;
    }

    /** `kv_cache_store_batch_f32` once the batch is accepted. */
    method StoreBatch(cfg: Config, first: nat, n: nat, ks: array<T>, vs: array<T>)
      returns (inside: bool, evicted: nat)
      requires ValidConfig(cfg) && Valid(cfg)
      requires ks.Length == vs.Length == Bytes(n, cfg.Vec()) && {ks, vs} !! Footprint()
      modifies this, keys, values
      ensures Valid(cfg) && inside == (first + n <= cfg.Slots())
      ensures var s := BatchPrepared(cfg, old(State()), first, n);
        if inside then State() == BatchStored(cfg, s, first, n, ks[..], vs[..])
        else State() == s && seqLen <= old(seqLen)
      ensures evicted == if PastEnd(cfg, first, n) then EvictCount(cfg, old(State())) else 0
    {
      hide EvictCount, BatchStored, Evicted, Config.Vec, Config.Unit, Config.Slots, Config.Capacity, ValidConfig, Bytes;
      evicted := 0;
      if n > cfg.max || first > cfg.max - n { evicted := ApplyEviction(cfg); }
      inside := first + n <= cfg.Slots();
      if inside { WriteBatch(cfg, first, n, ks, vs); }
    }

    method WriteBatch(cfg: Config, first: nat, n: nat, ks: array<T>, vs: array<T>)
      requires Valid(cfg) && ks.Length == vs.Length == Bytes(n, cfg.Vec()) && {ks, vs} !! Footprint()
      requires first + n <= cfg.Slots()
      modifies this, keys, values
      ensures Valid(cfg) && State() == BatchStored(cfg, old(State()), first, n, ks[..], vs[..])
    {
      hide Put, Config.Vec, Config.Unit, Config.Slots, Config.Capacity, Bytes;
      SpanFits(cfg, first, n);
      CopyInto(keys, Bytes(first, cfg.Vec()), ks, 0, Bytes(n, cfg.Vec()));
      CopyInto(values, Bytes(first, cfg.Vec()), vs, 0, Bytes(n, cfg.Vec()));
      assert ks[0..Bytes(n, cfg.Vec())] == ks[..] && vs[0..Bytes(n, cfg.Vec())] == vs[..];
      var end := first + n;
      if end > seqLen { seqLen := end; }
      stores := stores + n;
    }
  }

  /** A batch that does not end within the first `max` tokens. */
  predicate PastEnd(cfg: Config, first: nat, n: nat) { n > cfg.max || first > cfg.max - n }

  /** The layer that a batch store is about to write. */
  function BatchPrepared<T(!new)>(cfg: Config, s: LayerState<T>, first: nat, n: nat): (r: LayerState<T>)
    requires ValidConfig(cfg) && Fits(cfg, s)
    ensures Fits(cfg, r)
  {
    if PastEnd(cfg, first, n) then Evicted(cfg, s) else s
  }

  /** Only a batch that ends beyond the first `max` tokens evicts anything. */
  lemma BatchCases<T(!new)>(cfg: Config, s: LayerState<T>, first: nat, n: nat)
    requires ValidConfig(cfg) && Fits(cfg, s)
    ensures BatchPrepared(cfg, s, first, n) == if first + n <= cfg.max then s else Evicted(cfg, s)
  {
    hide Fits, ValidConfig, Evicted;
  }

  /** The layer after a batch has been written. */
  function BatchStored<T(!new)>(cfg: Config, s: LayerState<T>, first: nat, n: nat, ks: seq<T>, vs: seq<T>)
    : (r: LayerState<T>)
    requires Fits(cfg, s) && first + n <= cfg.Slots() && |ks| == |vs| == Bytes(n, cfg.Vec())
    ensures Fits(cfg, r)
  {
    SpanFits(cfg, first, n);
    s.(keys := Put(s.keys, Bytes(first, cfg.Vec()), ks),
       values := Put(s.values, Bytes(first, cfg.Vec()), vs),
       seqLen := Max(s.seqLen, first + n),
       stores := s.stores + n)
  }

  /** The layer after a reset. */
  function Cleared<T>(s: LayerState<T>): LayerState<T> { s.(seqLen := 0, startPos := 0) }

  /** A reader copies exactly n vectors from slot `first` on and leaves the rest of its buffer. */
  ghost predicate ReadBack<T(!new)>(cfg: Config, buf: seq<T>, first: nat, n: nat, before: seq<T>, after: seq<T>) {
    && Bytes(first, cfg.Vec()) + Bytes(n, cfg.Vec()) <= |buf| && Bytes(n, cfg.Vec()) <= |before|
    && after == Put(before, 0, buf[Bytes(first, cfg.Vec())..Bytes(first, cfg.Vec()) + Bytes(n, cfg.Vec())])
  }

  /** How a store ends: with a result code, or by writing past the end of the buffer. */
  datatype Outcome = Code(code: int) | Overrun

  class Cache<T(0,!new)> {
    const cfg: Config
    var layers: seq<Layer<T>>
    var initialized: bool
    var enabled: bool
    var totalStores: nat
    var totalHits: nat
    var totalEvictions: nat
    var currentSeqLen: nat
    var peakSeqLen: nat
    var resets: nat

    ghost function Repr(): set<object>
      reads `layers
    {
      set i: nat, o | i < |layers| && o in layers[i].Footprint() :: o
    }

    /** No layer shares a buffer with another. */
    ghost predicate Separate()
      reads `layers
    {
      forall i: nat, j: nat :: i < j < |layers| ==> layers[i].Footprint() !! layers[j].Footprint()
    }

    /** As many separate layers as configured, each fitting the configuration. */
    ghost predicate Shape()
      reads `layers, Repr()
    {
      && ValidConfig(cfg) && |layers| == cfg.layers && Separate() && this !in Repr()
      && forall i: nat :: i < |layers| ==> assert layers[i].Footprint() <= Repr(); layers[i].Valid(cfg)
    }

    ghost predicate Valid()
      reads this, Repr()
    {
      && Shape() && currentSeqLen <= peakSeqLen
      && forall i: nat :: i < |layers| ==> assert layers[i].Footprint() <= Repr(); layers[i].seqLen <= currentSeqLen
    }

    /** Everything but the layers themselves. */
    ghost function Counters(): (nat, nat, nat, nat, nat, nat)
      reads this
    {
      (totalStores, totalHits, totalEvictions, currentSeqLen, peakSeqLen, resets)
    }

    /** `kv_cache_create`: no cache exactly for a bad configuration or if an allocation fails. `granted`
        is the allocator's answer to all of them together. */
    static method Create(config: Config, granted: bool) returns (cache: Cache?<T>)
      ensures cache == null <==> !ValidConfig(config) || !granted
      ensures cache != null ==>
        && fresh(cache) && cache.Valid() && cache.cfg == config && fresh(cache.Repr())
        && cache.initialized && cache.enabled && cache.Counters() == (0, 0, 0, 0, 0, 0)
        && forall i: nat :: i < |cache.layers| ==> cache.layers[i].seqLen == cache.layers[i].startPos == 0
    {
      hide Config.Capacity, Config.Slots, Fits, Bytes;
      if config.layers == 0 || config.layers > 128 { return null; }
      if config.heads == 0 || config.heads > 256 { return null; }
      if config.headDim == 0 || config.headDim > 512 { return null; }
      if config.max == 0 || config.max > 32768 { return null; }
      if !granted { return null; }
      cache := new Cache<T>(config);
    }

    /** The allocations, once the configuration has been checked. */
    constructor (config: Config)
      requires ValidConfig(config)
      ensures Valid() && cfg == config && fresh(Repr()) && initialized && enabled
      ensures Counters() == (0, 0, 0, 0, 0, 0)
      ensures forall i: nat :: i < |layers| ==> layers[i].seqLen == layers[i].startPos == 0
    {
      cfg := config;
      layers := [];
      initialized, enabled := true, true;
      totalStores, totalHits, totalEvictions, currentSeqLen, peakSeqLen, resets := 0, 0, 0, 0, 0, 0;
      new;
      hide Fits, ValidConfig, Config.Capacity, Bytes;
      for k := 0 to config.layers
        invariant |layers| == k && cfg == config && initialized && enabled && Counters() == (0, 0, 0, 0, 0, 0)
        invariant forall i: nat :: i < k ==> fresh(layers[i].Footprint()) && this !in layers[i].Footprint()
        invariant forall i: nat :: i < k ==> layers[i].Valid(config) && layers[i].seqLen == layers[i].startPos == 0
        invariant Separate()
      {
        var layer := new Layer<T>(config);
        layers := layers + [layer];
      }
    }

    /** `kv_cache_reset`: every layer is emptied; its data and its counters stay. */
    method Reset()
      requires Valid()
      modifies this, Repr()
      ensures Valid() && layers == old(layers) && initialized == old(initialized) && enabled == old(enabled)
      ensures !initialized ==> Counters() == old(Counters())
      ensures initialized ==> Counters() == old(Counters()).(3 := 0, 5 := old(resets) + 1)
      ensures forall i: nat :: i < |layers| ==>
        layers[i].State() == if initialized then Cleared(old(layers[i].State())) else old(layers[i].State())
      ensures initialized ==> forall i: nat :: i < |layers| ==>
        && layers[i].seqLen == layers[i].startPos == 0
        && layers[i].keys == old(layers[i].keys) && layers[i].keys[..] == old(layers[i].keys[..])
        && layers[i].values == old(layers[i].values) && layers[i].values[..] == old(layers[i].values[..])
        && layers[i].evictions == old(layers[i].evictions)
        && layers[i].stores == old(layers[i].stores) && layers[i].hits == old(layers[i].hits)
    {
      hide Fits;
      if !initialized { return; }
      ClearAll();
      forall i: nat | i < |layers|
        ensures layers[i].seqLen == layers[i].State().seqLen == 0
        ensures layers[i].startPos == layers[i].State().startPos == 0
      {
      }
      currentSeqLen := 0;
      resets := resets + 1;
    }

    method ClearAll()
      requires Valid()
      modifies Repr()
      ensures Valid()
      ensures forall i: nat :: i < |layers| ==> layers[i].State() == Cleared(old(layers[i].State()))
    {
      hide Fits, Valid, Cleared;
      OutsideRepr();
      for k := 0 to |layers|
        invariant Valid()
        invariant forall i: nat :: i < k ==> layers[i].State() == Cleared(old(layers[i].State()))
        invariant forall i: nat :: k <= i < |layers| ==> layers[i].State() == old(layers[i].State())
      {
        InRepr(k);
        ClearLayer(k);
      }
    }

    lemma OutsideRepr()
      requires Valid()
      ensures this !in Repr()
    {
    }

    method ClearLayer(k: nat)
      requires Valid() && k < |layers|
      modifies layers[k].Footprint()
      ensures Valid() && layers[k].State() == Cleared(old(layers[k].State()))
      ensures forall i: nat :: i < |layers| && i != k ==> layers[i].State() == old(layers[i].State())
    {
      hide Fits, Cleared;
      Apart(k);
      layers[k].Clear(cfg);
    }

    lemma InRepr(k: nat)
      requires k < |layers|
      ensures layers[k].Footprint() <= Repr()
    {
    }

    lemma Apart(k: nat)
      requires Shape() && k < |layers|
      ensures layers[k].Footprint() <= Repr() && this !in layers[k].Footprint()
      ensures forall i: nat :: i < |layers| && i != k ==> layers[i].Footprint() !! layers[k].Footprint()
    {
    }

    /** The layer's part of an accepted store. */
    method StoreLayer(layer: nat, position: nat, key: array<T>, value: array<T>) returns (inside: bool, evicted: nat)
      requires Shape() && layer < |layers| && {key, value} !! Repr()
      requires key.Length == value.Length == cfg.Vec() && !Refused(cfg, position)
      modifies layers[layer].Footprint()
      ensures Shape() && inside == InBounds(cfg, old(layers[layer].State()), position)
      ensures forall i: nat :: i < |layers| && i != layer ==> layers[i].State() == old(layers[i].State())
      ensures inside ==> layers[layer].State() == Stored(cfg, old(layers[layer].State()), position, key[..], value[..])
      ensures !inside ==>
        && layers[layer].State() == Prepared(cfg, old(layers[layer].State()), position)
        && layers[layer].seqLen <= old(layers[layer].seqLen)
      ensures evicted == if position < cfg.max then 0 else EvictCount(cfg, old(layers[layer].State()))
    {
      hide Fits, Stored, Prepared, EvictCount, InBounds, Config.Vec, Config.Unit, Config.Slots, Config.Capacity,
        ValidConfig, Bytes;
      Apart(layer);
      inside, evicted := layers[layer].Store(cfg, position, key, value);
    }

    /** The layer's part of an accepted batch store. */
    method StoreBatchLayer(layer: nat, first: nat, n: nat, ks: array<T>, vs: array<T>)
      returns (inside: bool, evicted: nat)
      requires Shape() && layer < |layers| && {ks, vs} !! Repr()
      requires ks.Length == vs.Length == Bytes(n, cfg.Vec())
      modifies layers[layer].Footprint()
      ensures Shape() && inside == (first + n <= cfg.Slots())
      ensures forall i: nat :: i < |layers| && i != layer ==> layers[i].State() == old(layers[i].State())
      ensures var s := BatchPrepared(cfg, old(layers[layer].State()), first, n);
        if inside then layers[layer].State() == BatchStored(cfg, s, first, n, ks[..], vs[..])
        else layers[layer].State() == s && layers[layer].seqLen <= old(layers[layer].seqLen)
      ensures evicted == if PastEnd(cfg, first, n) then EvictCount(cfg, old(layers[layer].State())) else 0
    {
      hide Fits, BatchStored, BatchPrepared, EvictCount, Config.Vec, Config.Unit, Config.Slots, Config.Capacity,
        ValidConfig, Bytes;
      Apart(layer);
      inside, evicted := layers[layer].StoreBatch(cfg, first, n, ks, vs);
    }

    /** The cache-wide statistics after `n` stores to a layer, or after a write past its end (n = 0). */
    method Count(layer: nat, n: nat, evicted: nat)
      requires Shape() && layer < |layers| && currentSeqLen <= peakSeqLen
      requires forall i: nat :: i < |layers| && (n == 0 || i != layer) ==> layers[i].seqLen <= currentSeqLen
      modifies `totalStores, `totalEvictions, `currentSeqLen, `peakSeqLen
      ensures Valid() && totalStores == old(totalStores) + n && totalEvictions == old(totalEvictions) + evicted
      ensures currentSeqLen == if n == 0 then old(currentSeqLen) else Max(old(currentSeqLen), layers[layer].seqLen)
      ensures peakSeqLen == Max(old(peakSeqLen), currentSeqLen)
    {
      hide Fits, Config.Vec, Config.Unit, Config.Slots, Config.Capacity, ValidConfig, Bytes;
      totalEvictions := totalEvictions + evicted;
      totalStores := totalStores + n;
      if n == 0 { return; }
      if layers[layer].seqLen > currentSeqLen { currentSeqLen := layers[layer].seqLen; }
      if currentSeqLen > peakSeqLen { peakSeqLen := currentSeqLen; }
    }

    /** The result of `kv_cache_store_f32`. */
    ghost function StoreResult(layer: nat, position: nat, present: bool): (r: Outcome)
      requires Valid()
      reads this, Repr()
      ensures r == Code(-1) <==> !initialized || !enabled
      ensures r == Code(-2) <==> initialized && enabled && layer >= |layers|
      ensures r == Code(-3) <==> initialized && enabled && layer < |layers| && !present
      ensures r == Code(0) || r == Overrun
         <==> initialized && enabled && layer < |layers| && present && (position < cfg.max || !cfg.eviction.NoEviction?)
    {
      if !initialized || !enabled then Code(-1)
      else if layer >= |layers| then Code(-2)
      else if !present then Code(-3)
      else if Refused(cfg, position) then Code(-4)
      else if InBounds(cfg, LayerOf(layer), position) then Code(0)
      else Overrun
    }

    ghost function LayerOf(layer: nat): (s: LayerState<T>)
      requires Valid() && layer < |layers|
      reads this, Repr()
      ensures s == layers[layer].State() && Fits(cfg, s)
    {
      InRepr(layer);
      layers[layer].State()
    }

    /** What an eviction adds to the cache-wide counter. */
    ghost function EvictedBy(layer: nat, evicts: bool): nat
      requires Valid() && layer < |layers|
      reads this, Repr()
    {
      if evicts then EvictCount(cfg, LayerOf(layer)) else 0
    }

    /** `kv_cache_store_f32`. The source never compares the slot it ends up with to the buffer's
        end: `Overrun` is a write past it, after whatever was evicted. `StoresStayInBoundsIff`
        says which configurations exclude that. */
    method Store(layer: nat, position: nat, key: array?<T>, value: array?<T>) returns (result: Outcome)
      requires Valid() && position < TWO32
      requires key != null ==> key.Length == cfg.Vec() && key !in Repr()
      requires value != null ==> value.Length == cfg.Vec() && value !in Repr()
      modifies this, if layer < |layers| then layers[layer].Footprint() else {}
      ensures Valid() && layers == old(layers) && initialized == old(initialized) && enabled == old(enabled)
      ensures result == old(StoreResult(layer, position, key != null && value != null))
      ensures result.Code? && result.code != 0 ==> Counters() == old(Counters())
      ensures forall i: nat :: i < |layers| && (i != layer || (result.Code? && result.code != 0)) ==>
        layers[i].State() == old(layers[i].State())
      ensures result == Overrun ==>
        && layers[layer].State() == Prepared(cfg, old(layers[layer].State()), position)
        && Counters() == old(Counters()).(2 := old(totalEvictions) + old(EvictedBy(layer, position >= cfg.max)))
      ensures result == Code(0) ==>
        && layers[layer].State() == Stored(cfg, old(layers[layer].State()), position, key[..], value[..])
        && totalStores == old(totalStores) + 1 && totalHits == old(totalHits) && resets == old(resets)
        && totalEvictions == old(totalEvictions) + old(EvictedBy(layer, position >= cfg.max))
        && currentSeqLen == Max(old(currentSeqLen), layers[layer].seqLen)
        && peakSeqLen == Max(old(peakSeqLen), currentSeqLen)
    {
      hide Fits, Stored, Prepared, EvictCount, InBounds, Config.Vec, Config.Unit, Config.Slots, Config.Capacity,
        ValidConfig, Bytes;
      if !initialized || !enabled { return Code(-1); }
      if layer >= |layers| { return Code(-2); }
      if key == null || value == null { return Code(-3); }
      if position >= cfg.max && cfg.eviction.NoEviction? { return Code(-4); }
      var inside, evicted := StoreLayer(layer, position, key, value);
      Count(layer, if inside then 1 else 0, evicted);
      result := if inside then Code(0) else Overrun;
    }

    /** The result of `kv_cache_store_batch_f32`. */
    ghost function BatchResult(layer: nat, first: nat, n: nat, present: bool): (r: Outcome)
      reads this
      ensures r == Code(-1) <==> !initialized || !enabled
      ensures r == Code(-2) <==> initialized && enabled && layer >= |layers|
      ensures r == Code(-3) <==> initialized && enabled && layer < |layers| && (!present || n == 0)
      ensures r == Code(0) || r == Overrun
         <==> initialized && enabled && layer < |layers| && present && n > 0
              && (first + n <= cfg.max || !cfg.eviction.NoEviction?)
      ensures r == Code(0) ==> first + n <= cfg.Slots()
    {
      if !initialized || !enabled then Code(-1)
      else if layer >= |layers| then Code(-2)
      else if !present || n == 0 then Code(-3)
      else if PastEnd(cfg, first, n) && cfg.eviction.NoEviction? then Code(-4)
      else if first + n <= cfg.Slots() then Code(0)
      else Overrun
    }

    /** `kv_cache_store_batch_f32`. With eviction on, a batch past the end is written at `first`
        all the same, after an eviction that does not move it. */
    method StoreBatch(layer: nat, first: nat, n: nat, ks: array?<T>, vs: array?<T>) returns (result: Outcome)
      requires Valid() && first < TWO32 && n < TWO32
      requires ks != null ==> ks.Length == Bytes(n, cfg.Vec()) && ks !in Repr()
      requires vs != null ==> vs.Length == Bytes(n, cfg.Vec()) && vs !in Repr()
      modifies this, if layer < |layers| then layers[layer].Footprint() else {}
      ensures Valid() && layers == old(layers) && initialized == old(initialized) && enabled == old(enabled)
      ensures result == old(BatchResult(layer, first, n, ks != null && vs != null))
      ensures result.Code? && result.code != 0 ==> Counters() == old(Counters())
      ensures forall i: nat :: i < |layers| && (i != layer || (result.Code? && result.code != 0)) ==>
        layers[i].State() == old(layers[i].State())
      ensures result == Overrun ==>
        && layers[layer].State() == BatchPrepared(cfg, old(layers[layer].State()), first, n)
        && Counters() == old(Counters()).(2 := old(totalEvictions) + old(EvictedBy(layer, PastEnd(cfg, first, n))))
      ensures result == Code(0) ==>
        && layers[layer].State()
           == BatchStored(cfg, BatchPrepared(cfg, old(layers[layer].State()), first, n), first, n, ks[..], vs[..])
        && totalStores == old(totalStores) + n && totalHits == old(totalHits) && resets == old(resets)
        && totalEvictions == old(totalEvictions) + old(EvictedBy(layer, PastEnd(cfg, first, n)))
        && currentSeqLen == Max(old(currentSeqLen), layers[layer].seqLen)
        && peakSeqLen == Max(old(peakSeqLen), currentSeqLen)
    {
      hide Fits, BatchStored, BatchPrepared, EvictCount, Config.Vec, Config.Unit, Config.Slots, Config.Capacity,
        ValidConfig, Bytes;
      if !initialized || !enabled { return Code(-1); }
      if layer >= |layers| { return Code(-2); }
      if ks == null || vs == null || n == 0 { return Code(-3); }
      if (n > cfg.max || first > cfg.max - n) && cfg.eviction.NoEviction? { return Code(-4); }
      var inside, evicted := StoreBatchLayer(layer, first, n, ks, vs);
      Count(layer, if inside then n else 0, evicted);
      result := if inside then Code(0) else Overrun;
    }

    /** The result code of the two readers. They ignore `enabled`. */
    ghost function GetCode(layer: nat, first: nat, n: nat, present: bool): (code: int)
      reads this, Repr()
      ensures code == -1 <==> !initialized
      ensures code == -2 <==> initialized && layer >= |layers|
      ensures code == -3 <==> initialized && layer < |layers| && (!present || n == 0)
      ensures code == 0 <==>
        initialized && layer < |layers| && present && n > 0 && first + n <= SeqLenOf(layer)
    {
      if !initialized then -1
      else if layer >= |layers| then -2
      else if !present || n == 0 then -3
      else if n > SeqLenOf(layer) || first > SeqLenOf(layer) - n then -4
      else 0
    }

    ghost function SeqLenOf(layer: nat): nat
      requires layer < |layers|
      reads this, Repr()
    {
      assert layers[layer] in layers[layer].Footprint();
      layers[layer].seqLen
    }

    /** The layer's part of a successful read of keys. */
    method ReadLayer(layer: nat, first: nat, n: nat, output: array<T>)
      requires Shape() && layer < |layers| && first + n <= layers[layer].seqLen
      requires output.Length >= Bytes(n, cfg.Vec()) && output !in Repr()
      modifies layers[layer], output
      ensures Shape() && ReadBack(cfg, old(layers[layer].keys[..]), first, n, old(output[..]), output[..])
      ensures forall i: nat :: i < |layers| ==> layers[i].seqLen == old(layers[i].seqLen)
      ensures forall i: nat :: i < |layers| ==>
        layers[i].State() == old(layers[i].State()).(hits := old(layers[i].hits) + if i == layer then n else 0)
    {
      hide Fits, Put, ReadBack, Config.Vec, Config.Unit, Bytes;
      Apart(layer);
      layers[layer].ReadKeys(cfg, first, n, output);
    }

    /** `kv_cache_get_keys_f32`: the bytes of slots first .. first + n, counted as hits. */
    method GetKeys(layer: nat, first: nat, n: nat, output: array?<T>) returns (code: int)
      requires Valid() && (output != null ==> output.Length >= Bytes(n, cfg.Vec()) && output !in Repr())
      modifies this, output, if layer < |layers| then {layers[layer]} else {}
      ensures Valid() && layers == old(layers) && initialized == old(initialized) && enabled == old(enabled)
      ensures code == old(GetCode(layer, first, n, output != null))
      ensures code != 0 ==> Counters() == old(Counters()) && (output != null ==> output[..] == old(output[..]))
      ensures code == 0 ==> Counters() == old(Counters()).(1 := old(totalHits) + n)
      ensures code == 0 ==> ReadBack(cfg, old(layers[layer].keys[..]), first, n, old(output[..]), output[..])
      ensures forall i: nat :: i < |layers| ==>
        layers[i].State()
        == old(layers[i].State()).(hits := old(layers[i].hits) + if i == layer && code == 0 then n else 0)
    {
      OutsideRepr();
      hide Fits, Put, ReadBack, Config.Vec, Config.Unit, Shape, Bytes;
      if !initialized { return -1; }
      if layer >= |layers| { return -2; }
      if output == null || n == 0 { return -3; }
      if n > layers[layer].seqLen || first > layers[layer].seqLen - n { return -4; }
      ReadLayer(layer, first, n, output);
      totalHits := totalHits + n;
      code := 0;
    }

    /** `kv_cache_get_values_f32`: as for keys, but no hit is counted. */
    method GetValues(layer: nat, first: nat, n: nat, output: array?<T>) returns (code: int)
      requires Valid() && (output != null ==> output.Length >= Bytes(n, cfg.Vec()) && output !in Repr())
      modifies output
      ensures Valid()
      ensures code == old(GetCode(layer, first, n, output != null))
      ensures code != 0 && output != null ==> output[..] == old(output[..])
      ensures code == 0 ==> ReadBack(cfg, old(layers[layer].values[..]), first, n, old(output[..]), output[..])
    {
      hide Fits, Put;
      if !initialized { return -1; }
      if layer >= |layers| { return -2; }
      if output == null || n == 0 { return -3; }
      Apart(layer);
      if n > layers[layer].seqLen || first > layers[layer].seqLen - n { return -4; }
      layers[layer].InLength(cfg, first, n);
      CopyInto(output, 0, layers[layer].values, Bytes(first, cfg.Vec()), Bytes(n, cfg.Vec()));
      code := 0;
    }
  }
}
