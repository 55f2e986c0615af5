/**
 The tokeniser's vocabulary: a hash table whose chains run through a pool of entries, with
 the token texts in one pool of bytes. Read in order, the entry pool is the log of the
 insertions that succeeded, and every pointer is determined by that log.
 */
module BpeVocabulary {
  import opened Common

  const MAX_TOKEN_LEN: nat := 64
  const HASH_SIZE: nat := 65536
  const TWO32: nat := 0x1_0000_0000

  /** A string as C sees it: no byte is zero, so `strlen` is the length. */
  predicate CString(s: seq<Byte>) { forall i :: 0 <= i < |s| ==> s[i] != 0 }

  // ------------------------------------------------------------------ the log

  /** One successful insertion. */
  datatype Record = Record(text: seq<Byte>, id: nat)

  /** `djb2_hash` on 32 bits. */
  function Hash(s: seq<Byte>): (h: nat)
    ensures h < TWO32
  {
    if s == [] then 5381 else (Hash(s[..|s| - 1]) * 33 + s[|s| - 1]) % TWO32
  }

  /** The same without a limit: each byte counts 33 times as much as the one behind it. */
  function Djb2Sum(s: seq<Byte>): nat { if s == [] then 5381 else 33 * Djb2Sum(s[..|s| - 1]) + s[|s| - 1] }

  /** Wrapping at every byte is wrapping once at the end. */
  lemma {:induction false} HashWrapsOnce(s: seq<Byte>)
    ensures Hash(s) == Djb2Sum(s) % 0x1_0000_0000
  {
    if s != [] {
      HashWrapsOnce(s[..|s| - 1]);
      var whole := Djb2Sum(s[..|s| - 1]);
      var high := whole / TWO32;
      assert 33 * whole + s[|s| - 1] == (whole % TWO32 * 33 + s[|s| - 1]) + TWO32 * (33 * high);
      WholeTurns(whole % TWO32 * 33 + s[|s| - 1], 33 * high);
    }
  }

  lemma WholeTurns(x: int, k: int)
    ensures (x + TWO32 * k) % TWO32 == x % TWO32
  {
  }

  function Bucket(s: seq<Byte>): (b: nat)
    ensures b < HASH_SIZE
  {
    Hash(s) % HASH_SIZE
  }

  /** The last of the first `n` records in bucket `b`, or -1. */
  function LastInBucket(log: seq<Record>, b: nat, n: nat): (k: int)
    requires n <= |log|
    ensures -1 <= k < n
    ensures k >= 0 ==> Bucket(log[k].text) == b
    ensures forall j: nat :: k < j < n ==> Bucket(log[j].text) != b
  {
    if n == 0 then -1 else if Bucket(log[n - 1].text) == b then n - 1 else LastInBucket(log, b, n - 1)
  }

  /** The last of the first `n` records with the given text, or -1. */
  function LastWithText(log: seq<Record>, text: seq<Byte>, n: nat): (k: int)
    requires n <= |log|
    ensures -1 <= k < n
    ensures k >= 0 ==> log[k].text == text
    ensures forall j: nat :: k < j < n ==> log[j].text != text
  {
    if n == 0 then -1 else if log[n - 1].text == text then n - 1 else LastWithText(log, text, n - 1)
  }

  /** The last of the first `n` records with the given id, or -1. */
  function LastWithId(log: seq<Record>, id: nat, n: nat): (k: int)
    requires n <= |log|
    ensures -1 <= k < n
    ensures k >= 0 ==> log[k].id == id
    ensures forall j: nat :: k < j < n ==> log[j].id != id
  {
    if n == 0 then -1 else if log[n - 1].id == id then n - 1 else LastWithId(log, id, n - 1)
  }

  /** The vocabulary as a map from texts to ids, built by replaying the insertions in order. */
  function AsMap(log: seq<Record>): map<seq<Byte>, nat> {
    if log == [] then map[] else AsMap(log[..|log| - 1])[log[|log| - 1].text := log[|log| - 1].id]
  }

  /** What a lookup finds: the id of the most recent insertion of that text, or -1. */
  function Find(log: seq<Record>, text: seq<Byte>): int {
    var k := LastWithText(log, text, |log|);
    if k < 0 then -1 else log[k].id
  }

  /** Looking up in the log is looking up in the map. */
  lemma {:induction false} FindIsMapLookup(log: seq<Record>, text: seq<Byte>)
    ensures Find(log, text) == if text in AsMap(log) then AsMap(log)[text] else -1
  {
    if log != [] {
      var n := |log| - 1;
      FindIsMapLookup(log[..n], text);
      Prefix(log, text, n, n);
    }
  }

  lemma {:induction false} Prefix(log: seq<Record>, text: seq<Byte>, m: nat, n: nat)
    requires n <= m <= |log|
    ensures LastWithText(log[..m], text, n) == LastWithText(log, text, n)
  {
    if n > 0 { Prefix(log, text, m, n - 1); }
  }

  predicate DistinctIds(log: seq<Record>) {
    forall j: nat, k: nat :: j < k < |log| ==> log[j].id != log[k].id
  }

  /** With distinct ids, going from a text to its id and back is the identity. */
  lemma TextOfFind(log: seq<Record>, text: seq<Byte>)
    requires DistinctIds(log) && Find(log, text) >= 0
    ensures var k := LastWithId(log, Find(log, text), |log|); k >= 0 && log[k].text == text
  {
  }

  /** The pointers an insertion does not touch stay right when the log grows. */
  lemma {:induction false} Grow(log: seq<Record>, r: Record, b: nat, id: nat, n: nat)
    requires n <= |log|
    ensures LastInBucket(log + [r], b, n) == LastInBucket(log, b, n)
    ensures LastWithId(log + [r], id, n) == LastWithId(log, id, n)
  {
    if n > 0 { Grow(log, r, b, id, n - 1); }
  }

  // ------------------------------------------------------------------ the tables

  /** `struct bpe_vocab_entry`: `text` is an offset in the text pool, `next` an entry index or -1. */
  datatype Entry = Entry(text: nat, id: nat, length: nat, next: int)

  /** All five tables. `heads` is the hash table, `idToText` maps ids to text offsets. */
  datatype Tables =
    Tables(heads: seq<int>, idToText: seq<int>, entries: seq<Entry>, texts: seq<Byte>, entryCount: nat, textCount: nat)

  /** Every entry owns a NUL-terminated stretch of the text pool, and the stretches do not meet. */
  ghost predicate TextsOwned(t: Tables) {
    && t.entryCount <= |t.entries| && t.textCount <= |t.texts|
    && (forall k: nat :: k < t.entryCount ==>
          && 0 < t.entries[k].length <= MAX_TOKEN_LEN
          && t.entries[k].text + t.entries[k].length + 1 <= t.textCount
          && t.texts[t.entries[k].text + t.entries[k].length] == 0)
    && (forall j: nat, k: nat :: j < k < t.entryCount ==>
          t.entries[j].text + t.entries[j].length + 1 <= t.entries[k].text)
  }

  ghost function TextOf(t: Tables, k: nat): (text: seq<Byte>)
    requires TextsOwned(t) && k < t.entryCount
    ensures |text| == t.entries[k].length
  {
    t.texts[t.entries[k].text..t.entries[k].text + t.entries[k].length]
  }

  /** The insertions so far, oldest first, as the entry pool records them. */
  ghost function LogOf(t: Tables): (log: seq<Record>)
    requires TextsOwned(t)
    ensures |log| == t.entryCount
    ensures forall k: nat :: k < t.entryCount ==> log[k] == Record(TextOf(t, k), t.entries[k].id)
  {
    seq(t.entryCount, k requires 0 <= k < t.entryCount => Record(TextOf(t, k), t.entries[k].id))
  }

  /** The hash chains: each head and each link is the previous record of its bucket. */
  ghost predicate Chained(t: Tables, log: seq<Record>) {
    && |log| == t.entryCount <= |t.entries| && |t.heads| == HASH_SIZE
    && (forall b: nat :: b < HASH_SIZE ==> t.heads[b] == LastInBucket(log, b, |log|))
    && (forall k: nat :: k < |log| ==> t.entries[k].next == LastInBucket(log, Bucket(log[k].text), k))
  }

  /** The reverse table: each id points at its most recent text. */
  ghost predicate Reversed(t: Tables, log: seq<Record>) {
    && |log| == t.entryCount <= |t.entries|
    && (forall id: nat :: id < |t.idToText| ==> t.idToText[id] == OffsetOf(t, log, LastWithId(log, id, |log|)))
  }

  ghost function OffsetOf(t: Tables, log: seq<Record>, k: int): int
    requires -1 <= k < |t.entries|
  {
    if k < 0 then -1 else t.entries[k].text
  }

  /** The representation invariant of the vocabulary. */
  ghost predicate WellFormed(t: Tables) {
    && |t.idToText| == |t.entries| && |t.texts| == 16 * |t.entries|
    && TextsOwned(t) && (forall k: nat :: k < t.entryCount ==> CString(TextOf(t, k)))
    && Chained(t, LogOf(t)) && Reversed(t, LogOf(t))
  }

  /** Whether `bpe_vocab_insert` accepts a text. */
  predicate Accepts(t: Tables, text: seq<Byte>) {
    0 < |text| <= MAX_TOKEN_LEN && t.entryCount < |t.entries| && t.textCount + |text| + 1 <= |t.texts|
  }

  /** The tables after an accepted insertion. */
  ghost function Inserted(t: Tables, text: seq<Byte>, id: nat): Tables
    requires WellFormed(t) && Accepts(t, text)
  {
    var b := Bucket(text);
    var e := Entry(t.textCount, id, |text|, t.heads[b]);
    t.(heads := t.heads[b := t.entryCount],
       idToText := if id < |t.idToText| then t.idToText[id := t.textCount] else t.idToText,
       entries := t.entries[t.entryCount := e],
       texts := t.texts[..t.textCount] + text + [0] + t.texts[t.textCount + |text| + 1..],
       entryCount := t.entryCount + 1,
       textCount := t.textCount + |text| + 1)
  }

  /** Every link leads to an older entry. */
  predicate LinksBack(es: seq<Entry>) { forall k: nat :: k < |es| ==> -1 <= es[k].next < k }

  /** The entries a walk from entry k meets. */
  function Walk(es: seq<Entry>, k: int): seq<nat>
    requires LinksBack(es) && -1 <= k < |es|
    decreases k
  {
    if k < 0 then [] else [k as nat] + Walk(es, es[k].next)
  }

  ghost function Buckets(log: seq<Record>): (r: seq<nat>)
    ensures |r| == |log| && forall i :: 0 <= i < |log| ==> r[i] == Bucket(log[i].text)
  {
    seq(|log|, i requires 0 <= i < |log| => Bucket(log[i].text))
  }

  /** Entry j links to the newest older entry of its bucket. */
  predicate LinkOk(es: seq<Entry>, buckets: seq<nat>, j: nat) {
    && |es| == |buckets| && j < |es| && -1 <= es[j].next < j
    && (es[j].next >= 0 ==> buckets[es[j].next] == buckets[j])
    && (forall i: nat :: i < j && es[j].next < i ==> buckets[i] != buckets[j])
  }

  lemma LinkIs(t: Tables, j: nat)
    requires WellFormed(t) && j < t.entryCount
    ensures LinkOk(t.entries[..t.entryCount], Buckets(LogOf(t)), j)
  {
    EntryIs(t, j);
  }

  /** Chains are acyclic and stay in their bucket: the walk from k meets exactly the records up to
      k of k's bucket, each once, newest first. */
  lemma ChainIsBucket(t: Tables, k: nat)
    requires WellFormed(t) && k < t.entryCount
    ensures LinksBack(t.entries[..t.entryCount])
    ensures var w := Walk(t.entries[..t.entryCount], k);
      && (forall j: nat :: j in w <==> j <= k && Buckets(LogOf(t))[j] == Buckets(LogOf(t))[k])
      && (forall i: nat, j: nat :: i < j < |w| ==> w[j] < w[i])
  {
    var es, buckets := t.entries[..t.entryCount], Buckets(LogOf(t));
    hide WellFormed, TextsOwned, Buckets;
    forall j: nat | j < t.entryCount ensures LinkOk(es, buckets, j) { LinkIs(t, j); }
    WalkDescends(es, k);
    WalkIsBucket(es, buckets, k);
  }

  lemma {:induction false} WalkDescends(es: seq<Entry>, k: nat)
    requires LinksBack(es) && k < |es|
    ensures Walk(es, k)[0] == k
    ensures forall i: nat, j: nat :: i < j < |Walk(es, k)| ==> Walk(es, k)[j] < Walk(es, k)[i]
  {
    if es[k].next >= 0 { WalkDescends(es, es[k].next); }
  }

  /** `buckets[j]` is the bucket of record j. */
  lemma {:induction false} WalkIsBucket(es: seq<Entry>, buckets: seq<nat>, k: nat)
    requires k < |es| == |buckets| && LinksBack(es) && forall j: nat :: j < |es| ==> LinkOk(es, buckets, j)
    ensures forall j: nat :: j in Walk(es, k) <==> j <= k && buckets[j] == buckets[k]
  {
    assert LinkOk(es, buckets, k);
    var next := es[k].next;
    if next >= 0 { WalkIsBucket(es, buckets, next); }
    forall j: nat ensures j in Walk(es, k) <==> j <= k && buckets[j] == buckets[k] {
      assert j in Walk(es, k) <==> j == k || j in Walk(es, next);
    }
  }

  /** No byte of the text pool belongs to two entries. */
  lemma TextsDisjoint(t: Tables, j: nat, k: nat, byte: nat)
    requires WellFormed(t) && j < t.entryCount && k < t.entryCount
    requires t.entries[j].text <= byte <= t.entries[j].text + t.entries[j].length
    requires t.entries[k].text <= byte <= t.entries[k].text + t.entries[k].length
    ensures j == k
  {
  }

  /** The log `bpe_tokenizer_init` builds from the model's token list, and the bytes it uses. */
  ghost function Loaded(tokens: seq<seq<Byte>>, size: nat, n: nat): (r: (seq<Record>, nat))
    requires n <= |tokens|
    ensures |r.0| <= n
    ensures forall k: nat :: k < |r.0| ==> r.0[k].id < n && r.0[k].text == tokens[r.0[k].id]
    ensures DistinctIds(r.0)
  {
    if n == 0 then ([], 0)
    else
      var (log, used) := Loaded(tokens, size, n - 1);
      LoadStep(log, used, tokens[n - 1], n - 1, size)
  }

  /** One token of the list: kept when it is neither empty nor too long and the text pool has room. */
  function LoadStep(log: seq<Record>, used: nat, text: seq<Byte>, id: nat, size: nat): (seq<Record>, nat) {
    if 0 < |text| <= MAX_TOKEN_LEN && used + |text| + 1 <= 16 * size then (log + [Record(text, id)], used + |text| + 1)
    else (log, used)
  }

  /** The bytes of the text pool that the records take, each with its terminator. */
  function PoolBytes(log: seq<Record>): nat {
    if log == [] then 0 else PoolBytes(log[..|log| - 1]) + |log[|log| - 1].text| + 1
  }

  lemma PoolBytesNext(log: seq<Record>, r: Record)
    ensures PoolBytes(log + [r]) == PoolBytes(log) + |r.text| + 1
  {
    assert (log + [r])[..|log|] == log;
  }

  /** Token n joins the log exactly if its text has 1 to 64 bytes and fits, with its terminator, behind the
      ones loaded before it in a pool of 16 bytes for each token. */
  lemma {:induction false} LoadedNext(tokens: seq<seq<Byte>>, n: nat)
    requires n <= |tokens|
    ensures var (log, used) := Loaded(tokens, |tokens|, n);
      && used == PoolBytes(log) && (n == 0 ==> log == [])
      && (n < |tokens| ==> Loaded(tokens, |tokens|, n + 1).0 == Joined(tokens, log, n))
  {
    hide DistinctIds, PoolBytes;
    if n > 0 {
      LoadedNext(tokens, n - 1);
      PoolBytesNext(Loaded(tokens, |tokens|, n - 1).0, Record(tokens[n - 1], n - 1));
    } else {
      assert PoolBytes([]) == 0 by { NoPoolBytes(); }
    }
  }

  lemma NoPoolBytes()
    ensures PoolBytes([]) == 0
  {
  }

  /** The log with token n, if there is a place for it. */
  function Joined(tokens: seq<seq<Byte>>, log: seq<Record>, n: nat): seq<Record>
    requires n < |tokens|
  {
    if 1 <= |tokens[n]| <= 64 && PoolBytes(log) + |tokens[n]| + 1 <= 16 * |tokens| then log + [Record(tokens[n], n)]
    else log
  }

  /** The bytes that the first n texts need. */
  function BytesNeeded(tokens: seq<seq<Byte>>, n: nat): nat
    requires n <= |tokens|
  {
    if n == 0 then 0 else BytesNeeded(tokens, n - 1) + |tokens[n - 1]| + 1
  }

  /** The log holds exactly the first n tokens, in their order. */
  predicate HoldsFirst(log: seq<Record>, tokens: seq<seq<Byte>>, n: nat)
    requires n <= |tokens|
  {
    |log| == n && forall k :: 0 <= k < n ==> log[k] == Record(tokens[k], k)
  }

  /** The first n texts are neither empty nor too long, and the pool is large enough for them. */
  predicate Loadable(tokens: seq<seq<Byte>>, n: nat)
    requires n <= |tokens|
  {
    (forall k :: 0 <= k < n ==> 1 <= |tokens[k]| <= 64) && BytesNeeded(tokens, n) <= 16 * |tokens|
  }

  lemma LoadableNext(tokens: seq<seq<Byte>>, n: nat)
    requires n < |tokens|
    ensures Loadable(tokens, n + 1)
       <==> Loadable(tokens, n) && 1 <= |tokens[n]| <= 64 && BytesNeeded(tokens, n) + |tokens[n]| + 1 <= 16 * |tokens|
  {
  }

  /** The log when n tokens of the list have been loaded. */
  ghost function LogAfter(tokens: seq<seq<Byte>>, n: nat): seq<Record>
    requires n <= |tokens|
  {
    Loaded(tokens, |tokens|, n).0
  }

  /** The first n tokens are all loaded exactly if they are loadable. */
  lemma {:induction false} AllLoadedIff(tokens: seq<seq<Byte>>, n: nat)
    requires n <= |tokens|
    ensures |LogAfter(tokens, n)| <= n && (HoldsFirst(LogAfter(tokens, n), tokens, n) <==> Loadable(tokens, n))
    ensures HoldsFirst(LogAfter(tokens, n), tokens, n) ==> PoolBytes(LogAfter(tokens, n)) == BytesNeeded(tokens, n)
  {
    hide LogAfter, Joined, PoolBytes, HoldsFirst, Loadable;
    NothingLoaded(tokens);
    if n > 0 {
      AllLoadedIff(tokens, n - 1);
      LogAfterNext(tokens, n - 1);
      LoadableNext(tokens, n - 1);
      JoinHolds(tokens, LogAfter(tokens, n - 1), n - 1);
    }
  }

  lemma LogAfterNext(tokens: seq<seq<Byte>>, n: nat)
    requires n < |tokens|
    ensures LogAfter(tokens, n + 1) == Joined(tokens, LogAfter(tokens, n), n)
  {
    LoadedNext(tokens, n);
  }

  lemma NothingLoaded(tokens: seq<seq<Byte>>)
    ensures Loadable(tokens, 0) && HoldsFirst([], tokens, 0) && PoolBytes([]) == 0 && LogAfter(tokens, 0) == []
  {
  }

  lemma JoinHolds(tokens: seq<seq<Byte>>, log: seq<Record>, n: nat)
    requires n < |tokens| && |log| <= n
    ensures |Joined(tokens, log, n)| <= n + 1
    ensures HoldsFirst(Joined(tokens, log, n), tokens, n + 1)
       <==> HoldsFirst(log, tokens, n) && 1 <= |tokens[n]| <= 64 && PoolBytes(log) + |tokens[n]| + 1 <= 16 * |tokens|
    ensures HoldsFirst(Joined(tokens, log, n), tokens, n + 1) ==>
              PoolBytes(Joined(tokens, log, n)) == PoolBytes(log) + |tokens[n]| + 1
  {
    PoolBytesNext(log, Record(tokens[n], n));
    hide PoolBytes;
  }

  /** What an entry of the pool says about the log. */
  lemma EntryIs(t: Tables, k: nat)
    requires WellFormed(t) && k < t.entryCount
    ensures k < |t.entries| && t.entries[k].text + t.entries[k].length < |t.texts| && |LogOf(t)| == t.entryCount
    ensures LogOf(t)[k] == Record(t.texts[t.entries[k].text..t.entries[k].text + t.entries[k].length], t.entries[k].id)
    ensures t.entries[k].next == LastInBucket(LogOf(t), Bucket(LogOf(t)[k].text), k)
  {
    EntryText(t, k);
    EntryLink(t, LogOf(t), k);
    hide WellFormed, TextsOwned, Chained, Reversed, Bucket;
  }

  lemma EntryText(t: Tables, k: nat)
    requires TextsOwned(t) && k < t.entryCount
    ensures k < |t.entries| && t.entries[k].text + t.entries[k].length < |t.texts|
    ensures LogOf(t)[k] == Record(t.texts[t.entries[k].text..t.entries[k].text + t.entries[k].length], t.entries[k].id)
  {
  }

  lemma EntryLink(t: Tables, log: seq<Record>, k: nat)
    requires Chained(t, log) && k < |log|
    ensures t.entries[k].next == LastInBucket(log, Bucket(log[k].text), k)
  {
  }

  /** Its text is a C string in the pool. */
  lemma EntryTerminated(t: Tables, k: nat)
    requires WellFormed(t) && k < t.entryCount && t.entries[k].text + t.entries[k].length < |t.texts|
    ensures 0 < t.entries[k].length && t.texts[t.entries[k].text + t.entries[k].length] == 0
    ensures |LogOf(t)| == t.entryCount && CString(LogOf(t)[k].text)
  {
    hide Reversed, Chained, LastInBucket;
    assert LogOf(t)[k].text == TextOf(t, k);
  }

  /** The reverse table: a null pointer exactly for an id without a text, else a C string of the pool. */
  lemma PointerIs(t: Tables, id: nat)
    requires WellFormed(t) && id < |t.idToText|
    ensures t.idToText[id] >= 0 <==> LastWithId(LogOf(t), id, |LogOf(t)|) >= 0
    ensures t.idToText[id] >= 0 ==>
      var start, text := t.idToText[id], LogOf(t)[LastWithId(LogOf(t), id, |LogOf(t)|)].text;
      && start + |text| < |t.texts| && t.texts[start..start + |text|] == text
      && t.texts[start + |text|] == 0 && CString(text)
  {
    hide Chained, Bucket, TextOf, CString;
    var k := LastWithId(LogOf(t), id, |LogOf(t)|);
    if k >= 0 {
      EntryIs(t, k);
      EntryTerminated(t, k);
    }
  }

  /** A position in a text's bucket chain: no record beyond it, up to the end of the log, has the text. */
  ghost predicate Passed(log: seq<Record>, text: seq<Byte>, entry: int) {
    && -1 <= entry < |log|
    && (entry >= 0 ==> Bucket(log[entry].text) == Bucket(text))
    && (forall k: nat :: entry < k < |log| ==> log[k].text != text)
  }

  lemma PassedNext(log: seq<Record>, text: seq<Byte>, entry: int)
    requires Passed(log, text, entry) && entry >= 0 && log[entry].text != text
    ensures Passed(log, text, LastInBucket(log, Bucket(text), entry))
  {
  }

  lemma PassedEnd(log: seq<Record>, text: seq<Byte>, entry: int)
    requires Passed(log, text, entry)
    ensures entry < 0 ==> Find(log, text) == -1
    ensures entry >= 0 && log[entry].text == text ==> Find(log, text) == log[entry].id
  {
  }

  lemma PassedStart(t: Tables, text: seq<Byte>)
    requires WellFormed(t)
    ensures |t.heads| == HASH_SIZE && Passed(LogOf(t), text, t.heads[Bucket(text)])
  {
  }

  lemma SameBucket(log: seq<Record>, text: seq<Byte>, entry: int)
    requires Passed(log, text, entry) && entry >= 0
    ensures Bucket(log[entry].text) == Bucket(text)
  {
  }

  lemma Sizes(t: Tables)
    requires WellFormed(t)
    ensures |t.texts| == 16 * |t.entries| && t.entryCount == |LogOf(t)|
  {
  }

  lemma LogSize(t: Tables)
    requires WellFormed(t)
    ensures |LogOf(t)| == t.entryCount
    ensures forall b: nat :: b < HASH_SIZE && b < |t.heads| ==> -1 <= t.heads[b] < t.entryCount
  {
  }

  lemma NoEmptyText(t: Tables)
    requires WellFormed(t)
    ensures Find(LogOf(t), []) == -1
  {
    forall k: nat | k < t.entryCount ensures LogOf(t)[k].text != [] { EntryIs(t, k); EntryTerminated(t, k); }
  }

  /** An insertion adds one record to the log and changes none. */
  lemma InsertAppends(t: Tables, text: seq<Byte>, id: nat)
    requires WellFormed(t) && Accepts(t, text)
    ensures TextsOwned(Inserted(t, text, id)) && LogOf(Inserted(t, text, id)) == LogOf(t) + [Record(text, id)]
  {
    var u := Inserted(t, text, id);
    InsertKeepsOwned(t, text, id);
    forall k: nat | k < u.entryCount ensures TextOf(u, k) == (if k < t.entryCount then TextOf(t, k) else text) {
      InsertedText(t, text, id, k);
    }
    hide WellFormed, TextsOwned, TextOf;
  }

  lemma InsertKeepsOwned(t: Tables, text: seq<Byte>, id: nat)
    requires WellFormed(t) && Accepts(t, text)
    ensures TextsOwned(Inserted(t, text, id))
  {
    hide Chained, Reversed, Bucket;
  }

  lemma InsertedText(t: Tables, text: seq<Byte>, id: nat, k: nat)
    requires WellFormed(t) && Accepts(t, text) && k <= t.entryCount && TextsOwned(Inserted(t, text, id))
    ensures TextOf(Inserted(t, text, id), k) == if k < t.entryCount then TextOf(t, k) else text
  {
    hide Chained, Reversed, Bucket;
  }

  /** Insertion keeps the representation invariant. */
  lemma InsertKeepsWellFormed(t: Tables, text: seq<Byte>, id: nat)
    requires WellFormed(t) && Accepts(t, text) && CString(text)
    ensures WellFormed(Inserted(t, text, id))
  {
    hide Chained, Reversed, Bucket;
    InsertAppends(t, text, id);
    var u, log, r := Inserted(t, text, id), LogOf(t), Record(text, id);
    forall k: nat | k < u.entryCount ensures CString(TextOf(u, k)) {
      assert (log + [r])[k].text == TextOf(u, k);
    }
    InsertKeepsChains(t, u, log, r);
    InsertKeepsReverse(t, u, log, r);
  }

  lemma InsertKeepsChains(t: Tables, u: Tables, log: seq<Record>, r: Record)
    requires Chained(t, log) && t.entryCount < |t.entries|
    requires u.heads == t.heads[Bucket(r.text) := t.entryCount] && u.entryCount == t.entryCount + 1
    requires exists e: Entry :: u.entries == t.entries[t.entryCount := e] && e.next == t.heads[Bucket(r.text)]
    ensures Chained(u, log + [r])
  {
    hide Bucket;
    forall b: nat ensures LastInBucket(log + [r], b, |log|) == LastInBucket(log, b, |log|) {
      Grow(log, r, b, 0, |log|);
    }
    forall k: nat | k < |log|
      ensures LastInBucket(log + [r], Bucket(log[k].text), k) == LastInBucket(log, Bucket(log[k].text), k)
    {
      Grow(log, r, Bucket(log[k].text), 0, k);
    }
  }

  lemma InsertKeepsReverse(t: Tables, u: Tables, log: seq<Record>, r: Record)
    requires Reversed(t, log) && t.entryCount < |t.entries| && u.entryCount == t.entryCount + 1
    requires exists e: Entry :: u.entries == t.entries[t.entryCount := e] && e.text == t.textCount
    requires u.idToText == if r.id < |t.idToText| then t.idToText[r.id := t.textCount] else t.idToText
    ensures Reversed(u, log + [r])
  {
    forall id: nat ensures LastWithId(log + [r], id, |log|) == LastWithId(log, id, |log|) {
      Grow(log, r, 0, id, |log|);
    }
  }

  /** `strlen`. */
  method StrLen(pool: array<Byte>, start: nat, ghost length: nat) returns (n: nat)
    requires start + length < pool.Length && pool[start + length] == 0 && CString(pool[start..start + length])
    ensures n == length
  {
    n := 0;
    while pool[start + n] != 0
      invariant n <= length
      invariant n < length ==> pool[start + n] == pool[start..start + length][n]
      decreases length - n
    {
      n := n + 1;
    }
  }

  class Vocabulary {
    const heads: array<int>
    const idToText: array<int>
    const entries: array<Entry>
    const texts: array<Byte>
    var entryCount: nat
    var textCount: nat

    ghost function Repr(): set<object> { {this, heads, idToText, entries, texts} }

    ghost function State(): Tables
      reads this, heads, idToText, entries, texts
    {
      Tables(heads[..], idToText[..], entries[..], texts[..], entryCount, textCount)
    }

    ghost predicate Valid()
      reads this, heads, idToText, entries, texts
    {
      heads != idToText && WellFormed(State())
    }

    ghost function Log(): seq<Record>
      requires Valid()
      reads this, heads, idToText, entries, texts
    {
      LogOf(State())
    }

    /** The empty tables `bpe_tokenizer_init` allocates. */
    constructor (vocabSize: nat)
      ensures Valid() && Log() == [] && textCount == 0 && entries.Length == idToText.Length == vocabSize
      ensures fresh(Repr())
    {
      heads := new int[HASH_SIZE](_ => -1);
      idToText := new int[vocabSize](_ => -1);
      entries := new Entry[vocabSize](_ => Entry(0, 0, 0, -1));
      texts := new Byte[16 * vocabSize](_ => 0);
      entryCount, textCount := 0, 0;
    }

    /** `djb2_hash`. */
    method Djb2(text: seq<Byte>) returns (h: nat)
      ensures h == Hash(text)
    {
      h := 5381;
      for i := 0 to |text|
        invariant h == Hash(text[..i])
      {
        h := (h * 33 + text[i]) % TWO32;
        assert text[..i + 1][..i] == text[..i];
      }
      assert text[..|text|] == text;
    }

    /** `bpe_vocab_insert`: 0 and one more record, or -1 and nothing changed. */
    method Insert(text: seq<Byte>, id: nat) returns (code: int)
      requires Valid() && CString(text)
      modifies Repr()
      ensures Valid() && code == if Accepts(old(State()), text) then 0 else -1
      ensures Log() == if code == 0 then old(Log()) + [Record(text, id)] else old(Log())
      ensures code == 0 ==> State() == Inserted(old(State()), text, id)
      ensures code == -1 ==> State() == old(State())
      ensures textCount == old(textCount) + if code == 0 then |text| + 1 else 0
    {
      hide WellFormed, TextsOwned, Inserted;
      if |text| == 0 || |text| > MAX_TOKEN_LEN { return -1; }
      if entryCount >= entries.Length { return -1; }
      if textCount + |text| + 1 > texts.Length { return -1; }
      InsertAppends(State(), text, id);
      InsertKeepsWellFormed(State(), text, id);
      Append(text, id);
      CountsGrow(old(State()), text, id);
      code := 0;
    }

    lemma CountsGrow(t: Tables, text: seq<Byte>, id: nat)
      requires WellFormed(t) && Accepts(t, text)
      ensures Inserted(t, text, id).textCount == t.textCount + |text| + 1
    {
    }

    /** The accepted path. */
    method Append(text: seq<Byte>, id: nat)
      requires Valid() && Accepts(State(), text)
      modifies Repr()
      ensures State() == Inserted(old(State()), text, id)
    {
      hide WellFormed, TextsOwned, Bucket, Hash;
      HeadsSize(State(), text);
      StoreText(text);
      var h := Djb2(text);
      var b := h % HASH_SIZE;
      entries[entryCount] := Entry(textCount, id, |text|, heads[b]);
      heads[b] := entryCount;
      if id < idToText.Length { idToText[id] := textCount; }
      entryCount := entryCount + 1;
      textCount := textCount + |text| + 1;
    }

    /** The loading loop of `bpe_tokenizer_init`; a missing token is an empty text. */
    method Load(tokens: seq<seq<Byte>>)
      requires Valid() && Log() == [] && textCount == 0 && |tokens| == entries.Length
      requires forall i :: 0 <= i < |tokens| ==> CString(tokens[i])
      modifies Repr()
      ensures Valid() && Log() == Loaded(tokens, |tokens|, |tokens|).0 && DistinctIds(Log())
    {
      hide WellFormed, DistinctIds, LoadStep;
      for i := 0 to |tokens|
        invariant Valid() && (Log(), textCount) == Loaded(tokens, |tokens|, i)
      {
        LoadOne(tokens[i], i);
      }
    }

    method LoadOne(text: seq<Byte>, id: nat)
      requires Valid() && CString(text) && |Log()| < entries.Length
      modifies Repr()
      ensures Valid() && (Log(), textCount) == LoadStep(old(Log()), old(textCount), text, id, entries.Length)
    {
      hide WellFormed, TextsOwned, Inserted;
      if |text| > 0 {
        Sizes(State());
        var code := Insert(text, id);
      }
    }

    lemma HeadsSize(t: Tables, text: seq<Byte>)
      requires WellFormed(t)
      ensures Bucket(text) == Hash(text) % HASH_SIZE && |t.heads| == HASH_SIZE && |t.idToText| == |t.entries|
    {
    }

    /** The pool while the first i bytes of the text have been copied. */
    static function Overwritten(pool: seq<Byte>, c: nat, text: seq<Byte>, i: nat): seq<Byte>
      requires c + |text| < |pool| && i <= |text|
    {
      pool[..c] + text[..i] + pool[c + i..]
    }

    static lemma OverwriteFirst(pool: seq<Byte>, c: nat, text: seq<Byte>)
      requires c + |text| < |pool|
      ensures Overwritten(pool, c, text, 0) == pool
    {
    }

    static lemma OverwriteNext(pool: seq<Byte>, c: nat, text: seq<Byte>, i: nat)
      requires c + |text| < |pool| && i < |text|
      ensures |Overwritten(pool, c, text, i)| == |pool|
      ensures Overwritten(pool, c, text, i)[c + i := text[i]] == Overwritten(pool, c, text, i + 1)
    {
    }

    static lemma OverwriteLast(pool: seq<Byte>, c: nat, text: seq<Byte>)
      requires c + |text| < |pool|
      ensures |Overwritten(pool, c, text, |text|)| == |pool|
      ensures Overwritten(pool, c, text, |text|)[c + |text| := 0] == pool[..c] + text + [0] + pool[c + |text| + 1..]
    {
      assert text[..|text|] == text;
    }

    /** The text and its terminator, at the free end of the pool. */
    method StoreText(text: seq<Byte>)
      requires textCount + |text| + 1 <= texts.Length
      modifies texts
      ensures texts[..] == old(texts[..textCount]) + text + [0] + old(texts[textCount + |text| + 1..])
    {
      hide Overwritten;
      ghost var before := texts[..];
      OverwriteFirst(before, textCount, text);
      for i := 0 to |text|
        invariant texts[..] == Overwritten(before, textCount, text, i)
      {
        OverwriteNext(before, textCount, text, i);
        texts[textCount + i] := text[i];
      }
      OverwriteLast(before, textCount, text);
      texts[textCount + |text|] := 0;
    }

    /** `bpe_vocab_lookup`: walks the chain of the text's bucket to the most recent match. */
    method Lookup(text: seq<Byte>) returns (id: int)
      requires Valid() && CString(text)
      ensures id == Find(Log(), text)
    {
      hide Hash, WellFormed, TextsOwned, Passed, Find;
      ghost var t := State();
      ghost var log := Log();
      if |text| == 0 {
        NoEmptyText(t);
        return -1;
      }
      var h := Djb2(text);
      PassedStart(t, text);
      var entry := heads[h % HASH_SIZE];
      LogSize(t);
      while entry >= 0
        invariant -1 <= entry < entryCount && Passed(log, text, entry)
        decreases entry
      {
        EntryIs(t, entry);
        if entries[entry].length == |text| && Matches(entries[entry].text, text) {
          PassedEnd(log, text, entry);
          return entries[entry].id;
        }
        PassedNext(log, text, entry);
        SameBucket(log, text, entry);
        entry := entries[entry].next;
      }
      PassedEnd(log, text, entry);
      return -1;
    }

    /** `strncmp` of a pool string with a text of the same length. */
    predicate Matches(offset: nat, text: seq<Byte>)
      requires offset + |text| <= texts.Length
      reads texts
      ensures Matches(offset, text) <==> texts[offset..offset + |text|] == text
    {
      texts[offset..offset + |text|] == text
    }

    /** The text an id points at, its length found by `strlen`. */
    method TokenText(id: nat) returns (found: bool, text: seq<Byte>)
      requires Valid() && id < idToText.Length
      ensures found == (LastWithId(Log(), id, |Log()|) >= 0)
      ensures found ==> text == Log()[LastWithId(Log(), id, |Log()|)].text
    {
      hide WellFormed, TextsOwned;
      ghost var t := State();
      PointerIs(t, id);
      var start := idToText[id];
      if start < 0 { return false, []; }
      ghost var m := |Log()[LastWithId(Log(), id, |Log()|)].text|;
      assert t.texts[start..start + m] == texts[start..start + m] && t.texts[start + m] == texts[start + m];
      var n := StrLen(texts, start, m);
      return true, texts[start..start + n];
    }
  }
}
