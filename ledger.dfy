/** The settlement ledger of src/server.ts:286-368 and the event-log flush of
    :434-462.

    Module state: the set of hashes already written (`persistedHashes`), the
    deduplicated file content (`fileCache`), the recent-entry window
    (`ReflashData`, at most 20 entries, filled only by loads), the `flushing`
    flag shared by both flush routines, and the pending event records
    (`newRecords1`). The two files are abstract: a file is missing,
    unreadable (a read or JSON error), not an array, or an array of items.

    The pure functions `LoadStep`, `FlushStep` and `FlushNowStep` give the
    effect of one call on the whole state and carry the properties; the
    class `Ledger` performs the same calls step by step and is proved to
    match them. */
module SettleLedger {
  import opened Common
  import opened Types

  /** Size of the recent-entry window a load installs. */
  const WINDOW: nat := 20

  datatype SettleFile = Missing | Unreadable | NotAnArray | Items(items: seq<Record>)

  /** A raw settlement event; only its block number matters here. */
  datatype Event = Event(blockNumber: Option<int>, body: string)

  datatype EventFile = NoLog | LogUnreadable | LogNotAnArray | LogItems(events: seq<Event>)

  datatype LedgerState = LedgerState(
    persisted: set<string>,
    fileCache: seq<Record>,
    recent: seq<Record>,
    flushing: bool,
    disk: SettleFile,
    tmp: SettleFile,
    pending: seq<Event>,
    eventLog: EventFile)

  function Initial(settleFile: SettleFile, eventFile: EventFile): LedgerState {
    LedgerState({}, [], [], false, settleFile, Missing, [], eventFile)
  }

  // ---------------------------------------------------------------------
  // Deduplication on load
  // ---------------------------------------------------------------------

  /** `JSON.stringify(item)`: the five fields in declaration order (string
      escaping is not modelled). */
  function Serialise(r: Record): string {
    "{\"hash\":\"" + r.hash + "\",\"wallet\":\"" + r.wallet + "\",\"SETTLE\":\"" + r.settle
    + "\",\"USDC\":\"" + r.usdc + "\",\"timestmp\":\"" + r.timestamp + "\"}"
  }

  /** The deduplication key: the hash, or the serialised item when the hash is empty. */
  function Key(r: Record): string {
    if r.hash != "" then r.hash else Serialise(r)
  }

  function KeySet(rs: seq<Record>): set<string>
    decreases |rs|
  {
    if rs == [] then {} else KeySet(rs[..|rs| - 1]) + {Key(rs[|rs| - 1])}
  }

  lemma {:induction false} KeySetHas(rs: seq<Record>, i: nat)
    requires i < |rs|
    ensures Key(rs[i]) in KeySet(rs)
    decreases |rs|
  {
    if i < |rs| - 1 {
      KeySetHas(rs[..|rs| - 1], i);
    }
  }

  lemma {:induction false} KeySetWitness(rs: seq<Record>, k: string) returns (i: nat)
    requires k in KeySet(rs)
    ensures i < |rs| && Key(rs[i]) == k
    decreases |rs|
  {
    if Key(rs[|rs| - 1]) == k {
      i := |rs| - 1;
    } else {
      i := KeySetWitness(rs[..|rs| - 1], k);
    }
  }

  lemma {:induction false} NotInKeySet(rs: seq<Record>, k: string)
    requires forall i :: 0 <= i < |rs| ==> Key(rs[i]) != k
    ensures k !in KeySet(rs)
    decreases |rs|
  {
    if rs != [] {
      NotInKeySet(rs[..|rs| - 1], k);
    }
  }

  predicate DistinctKeys(rs: seq<Record>) {
    forall i, j :: 0 <= i < j < |rs| ==> Key(rs[i]) != Key(rs[j])
  }

  /** The loop at server.ts:344-347: walk the array, keep an item when its
      key has not been seen (the JS Map's key set), in insertion order. */
  function FirstOccurrences(rs: seq<Record>): (d: seq<Record>)
    ensures KeySet(d) == KeySet(rs)
    ensures |d| <= |rs|
    decreases |rs|
  {
    if rs == [] then []
    else
      var p := rs[..|rs| - 1];
      var x := rs[|rs| - 1];
      var fp := FirstOccurrences(p);
      if Key(x) in KeySet(p) then fp
      else
        var d := fp + [x];
        assert d[..|d| - 1] == fp && d[|d| - 1] == x;
        d
  }

  /** `rs[i]` is the first element of `rs` with its key. */
  predicate IsFirst(rs: seq<Record>, i: nat)
    requires i < |rs|
  {
    forall j :: 0 <= j < i ==> Key(rs[j]) != Key(rs[i])
  }

  /** Reference definition: the elements that are first with their key, in order. */
  function Firsts(rs: seq<Record>): seq<Record>
    decreases |rs|
  {
    if rs == [] then []
    else Firsts(rs[..|rs| - 1]) + (if IsFirst(rs, |rs| - 1) then [rs[|rs| - 1]] else [])
  }

  /** The map-based loop keeps exactly the first occurrence of every key, in
      first-occurrence order. */
  lemma {:induction false} FirstOccurrencesAreFirsts(rs: seq<Record>)
    ensures FirstOccurrences(rs) == Firsts(rs)
    decreases |rs|
  {
    if rs != [] {
      var p := rs[..|rs| - 1];
      var x := rs[|rs| - 1];
      FirstOccurrencesAreFirsts(p);
      if Key(x) in KeySet(p) {
        var j := KeySetWitness(p, Key(x));
        assert rs[j] == p[j];
        assert !IsFirst(rs, |rs| - 1);
      } else {
        forall j | 0 <= j < |rs| - 1
          ensures Key(rs[j]) != Key(x)
        {
          assert rs[j] == p[j];
          KeySetHas(p, j);
        }
      }
    }
  }

  /** No two kept entries share a key. */
  lemma {:induction false} FirstOccurrencesDistinct(rs: seq<Record>)
    ensures DistinctKeys(FirstOccurrences(rs))
    decreases |rs|
  {
    if rs != [] {
      var p := rs[..|rs| - 1];
      var x := rs[|rs| - 1];
      FirstOccurrencesDistinct(p);
      var dp := FirstOccurrences(p);
      if Key(x) !in KeySet(p) {
        forall i | 0 <= i < |dp|
          ensures Key(dp[i]) != Key(x)
        {
          KeySetHas(dp, i);
        }
        assert FirstOccurrences(rs) == dp + [x];
      }
    }
  }

  /** An array whose keys are already distinct loads unchanged; hence
      deduplicating twice is deduplicating once. */
  lemma {:induction false} FirstOccurrencesOfDistinct(rs: seq<Record>)
    requires DistinctKeys(rs)
    ensures FirstOccurrences(rs) == rs
    decreases |rs|
  {
    if rs != [] {
      var p := rs[..|rs| - 1];
      var x := rs[|rs| - 1];
      assert DistinctKeys(p);
      FirstOccurrencesOfDistinct(p);
      forall i | 0 <= i < |p|
        ensures Key(p[i]) != Key(x)
      {
        assert p[i] == rs[i];
      }
      NotInKeySet(p, Key(x));
      assert rs == p + [x];
    }
  }

  lemma FirstOccurrencesIdempotent(rs: seq<Record>)
    ensures FirstOccurrences(FirstOccurrences(rs)) == FirstOccurrences(rs)
  {
    FirstOccurrencesDistinct(rs);
    FirstOccurrencesOfDistinct(FirstOccurrences(rs));
  }

  /** What a successful load puts in `fileCache`. */
  function LoadedCache(f: SettleFile): seq<Record> {
    match f
    case Items(xs) => FirstOccurrences(xs)
    case _ => []
  }

  /** `fileCache.slice(0, 20)`. */
  function Window(cache: seq<Record>): (w: seq<Record>)
    ensures |w| == Min(WINDOW, |cache|)
    ensures forall i :: 0 <= i < |w| ==> w[i] == cache[i]
  {
    cache[..Min(WINDOW, |cache|)]
  }

  // ---------------------------------------------------------------------
  // Hash index
  // ---------------------------------------------------------------------

  function HashesOf(rs: seq<Record>): set<string>
    decreases |rs|
  {
    if rs == [] then {} else HashesOf(rs[..|rs| - 1]) + {rs[|rs| - 1].hash}
  }

  lemma {:induction false} HashesOfHas(rs: seq<Record>, i: nat)
    requires i < |rs|
    ensures rs[i].hash in HashesOf(rs)
    decreases |rs|
  {
    if i < |rs| - 1 {
      HashesOfHas(rs[..|rs| - 1], i);
    }
  }

  /** The entries whose hash is not in the index, in their order (the loop
      at server.ts:302-309 and the filter at :315). */
  function Unpersisted(rs: seq<Record>, persisted: set<string>): (r: seq<Record>)
    ensures |r| <= |rs|
    ensures forall x :: x in r ==> x in rs && x.hash !in persisted
    ensures forall i :: 0 <= i < |rs| && rs[i].hash !in persisted ==> rs[i] in r
    decreases |rs|
  {
    if rs == [] then []
    else
      var p := rs[..|rs| - 1];
      var x := rs[|rs| - 1];
      assert forall i :: 0 <= i < |rs| - 1 ==> rs[i] == p[i];
      Unpersisted(p, persisted) + (if x.hash in persisted then [] else [x])
  }

  /** A sequence with no indexed hash passes the filter whole. */
  lemma {:induction false} UnpersistedOfFresh(rs: seq<Record>, persisted: set<string>)
    requires forall i :: 0 <= i < |rs| ==> rs[i].hash !in persisted
    ensures Unpersisted(rs, persisted) == rs
    decreases |rs|
  {
    if rs != [] {
      var p := rs[..|rs| - 1];
      var x := rs[|rs| - 1];
      forall i | 0 <= i < |p|
        ensures p[i].hash !in persisted
      {
        assert p[i] == rs[i];
      }
      UnpersistedOfFresh(p, persisted);
      assert x.hash !in persisted;
      assert Unpersisted(rs, persisted) == Unpersisted(p, persisted) + [x];
      assert rs == p + [x];
    }
  }

  /** The selection keeps the window's order and multiplicity: it
      distributes over concatenation, and a single entry is kept exactly
      when its hash is not indexed. */
  lemma {:induction false} UnpersistedAppend(a: seq<Record>, b: seq<Record>, persisted: set<string>)
    ensures Unpersisted(a + b, persisted) == Unpersisted(a, persisted) + Unpersisted(b, persisted)
    decreases |b|
  {
    if b == [] {
      assert a + b == a;
    } else {
      var bp := b[..|b| - 1];
      var ab := a + b;
      assert ab[..|ab| - 1] == a + bp;
      assert ab[|ab| - 1] == b[|b| - 1];
      UnpersistedLast(ab, persisted);
      UnpersistedLast(b, persisted);
      UnpersistedAppend(a, bp, persisted);
    }
  }

  /** One unfolding of the selection, on the last entry. */
  lemma UnpersistedLast(rs: seq<Record>, persisted: set<string>)
    requires rs != []
    ensures Unpersisted(rs, persisted)
         == Unpersisted(rs[..|rs| - 1], persisted) + (if rs[|rs| - 1].hash in persisted then [] else [rs[|rs| - 1]])
  {
  }

  lemma UnpersistedSingle(x: Record, persisted: set<string>)
    ensures Unpersisted([x], persisted) == if x.hash in persisted then [] else [x]
  {
    assert [x][..0] == [];
  }

  /** Filtering again against the same index changes nothing: the re-filter
      after the reload at server.ts:315 sees the index the first filter saw,
      since a load never touches it. */
  lemma UnpersistedIdempotent(rs: seq<Record>, persisted: set<string>)
    ensures Unpersisted(Unpersisted(rs, persisted), persisted) == Unpersisted(rs, persisted)
  {
    var a := Unpersisted(rs, persisted);
    assert forall i :: 0 <= i < |a| ==> a[i] in a;
    UnpersistedOfFresh(a, persisted);
  }

  // ---------------------------------------------------------------------
  // loadSettleFile
  // ---------------------------------------------------------------------

  datatype LoadOutcome = LoadOutcome(state: LedgerState, threw: bool)

  /** `loadSettleFile()`. `writeOk` says whether writing "[]" over a missing
      file succeeds; when it fails the load throws before it resets the
      window. */
  function LoadStep(s: LedgerState, writeOk: bool): (r: LoadOutcome)
    ensures r.state.fileCache == LoadedCache(s.disk)
    ensures r.threw <==> s.disk.Missing? && !writeOk
    ensures r.state.recent == if r.threw then s.recent else Window(r.state.fileCache)
    ensures r.state.disk == if s.disk.Missing? && writeOk then Items([]) else s.disk
    ensures r.state.persisted == s.persisted
    ensures r.state.(fileCache := s.fileCache, recent := s.recent, disk := s.disk) == s
  {
    match s.disk
    case Items(xs) =>
      var c := FirstOccurrences(xs);
      LoadOutcome(s.(fileCache := c, recent := Window(c)), false)
    case Missing =>
      if writeOk then LoadOutcome(s.(fileCache := [], disk := Items([]), recent := []), false)
      else LoadOutcome(s.(fileCache := []), true)
    case _ =>
      LoadOutcome(s.(fileCache := [], recent := []), false)
  }

  /** After a load that does not throw, the cache holds the first entry of
      every key on disk and nothing else, and the window is its first
      min(20, |cache|) entries. */
  lemma LoadResult(s: LedgerState, writeOk: bool)
    requires !LoadStep(s, writeOk).threw
    ensures var t := LoadStep(s, writeOk).state;
      && t.fileCache == (if s.disk.Items? then Firsts(s.disk.items) else [])
      && DistinctKeys(t.fileCache)
      && |t.recent| == Min(WINDOW, |t.fileCache|)
      && (forall i :: 0 <= i < |t.recent| ==> t.recent[i] == t.fileCache[i])
  {
    if s.disk.Items? {
      FirstOccurrencesAreFirsts(s.disk.items);
      FirstOccurrencesDistinct(s.disk.items);
    }
  }

  // ---------------------------------------------------------------------
  // flushNewReflashData
  // ---------------------------------------------------------------------

  /** What a flush from `s` would write: the unindexed window entries in
      front of the freshly loaded file. */
  function Written(s: LedgerState): seq<Record> {
    Unpersisted(s.recent, s.persisted) + LoadedCache(s.disk)
  }

  /** The flush gets past its guards and its reload. */
  predicate Reloads(s: LedgerState, loadWriteOk: bool) {
    && !s.flushing
    && Unpersisted(s.recent, s.persisted) != []
    && (s.disk.Missing? ==> loadWriteOk)
  }

  /** `flushNewReflashData()`. The outcomes say whether writing "[]" during
      the reload, writing the temporary file, and renaming it succeed. */
  function FlushStep(s: LedgerState, loadWriteOk: bool, tmpWriteOk: bool, renameOk: bool): (r: LedgerState)
    // a flush already in progress: return at once, flag untouched
    ensures s.flushing ==> r == s
    // every other exit clears the flag
    ensures !s.flushing ==> !r.flushing
    // nothing unindexed in the window: no reload, no write, no change
    ensures Unpersisted(s.recent, s.persisted) == [] ==> r == s
    // the event-log half of the state is not touched
    ensures r.pending == s.pending && r.eventLog == s.eventLog
    // the file is left alone, initialised to [], or replaced whole
    ensures r.disk == s.disk || (s.disk.Missing? && r.disk == Items([])) || r.disk == Items(Written(s))
    // the index grows only together with a completed rename, and then by
    // exactly the hashes that were written in front of the old content
    ensures s.persisted <= r.persisted
    ensures r.persisted == s.persisted
         || (&& r.disk == Items(Written(s)) && r.fileCache == Written(s)
             && r.persisted == s.persisted + HashesOf(Unpersisted(s.recent, s.persisted)))
    // with every I/O step succeeding, the write and the index update happen
    ensures Reloads(s, loadWriteOk) && tmpWriteOk && renameOk ==>
         && r.disk == Items(Written(s)) && r.fileCache == Written(s) && r.tmp == Missing
         && r.persisted == s.persisted + HashesOf(Unpersisted(s.recent, s.persisted))
    // the reload overwrites the recent window with the file's first entries
    ensures Reloads(s, loadWriteOk) ==> r.recent == Window(LoadedCache(s.disk))
  {
    if s.flushing then s
    else
      var newOnes := Unpersisted(s.recent, s.persisted);
      if newOnes == [] then s
      else
        var l := LoadStep(s.(flushing := true), loadWriteOk);
        var t := l.state;
        if l.threw then t.(flushing := false)
        else
          var reallyNew := Unpersisted(newOnes, t.persisted);
          UnpersistedIdempotent(s.recent, s.persisted);
          if reallyNew == [] then t.(flushing := false)
          else
            var next := reallyNew + t.fileCache;
            if !tmpWriteOk then t.(flushing := false)
            else if !renameOk then t.(tmp := Items(next), flushing := false)
            else
              t.(tmp := Missing, disk := Items(next), fileCache := next,
                 persisted := t.persisted + HashesOf(reallyNew), flushing := false)
  }

  /** The flush is crash-safe: the new content goes to a temporary file that
      is renamed over the ledger, so a failed write or rename leaves the
      ledger file, the cache and the index as the reload left them, and the
      index changes only once the rename has succeeded. */
  lemma FlushCrashSafe(s: LedgerState, loadWriteOk: bool, tmpWriteOk: bool, renameOk: bool)
    ensures var r := FlushStep(s, loadWriteOk, tmpWriteOk, renameOk);
      Reloads(s, loadWriteOk) && !(tmpWriteOk && renameOk) ==>
        && r.disk == (if s.disk.Missing? then Items([]) else s.disk)
        && r.persisted == s.persisted && r.fileCache == LoadedCache(s.disk)
    ensures var r := FlushStep(s, loadWriteOk, tmpWriteOk, renameOk);
      Reloads(s, loadWriteOk) && tmpWriteOk && !renameOk ==> r.tmp == Items(Written(s))
    ensures var r := FlushStep(s, loadWriteOk, tmpWriteOk, renameOk);
      r.persisted != s.persisted ==> Reloads(s, loadWriteOk) && tmpWriteOk && renameOk
  {
    UnpersistedIdempotent(s.recent, s.persisted);
  }

  /** The code as written: a ledger file holding one entry is loaded, and the
      first flush writes that entry again in front of itself, so the file
      holds the same hash twice. */
  lemma LoadThenFlushDuplicates(e: Record)
    ensures var s1 := LoadStep(Initial(Items([e]), NoLog), true).state;
      && s1.recent == [e] && s1.persisted == {}
      && FlushStep(s1, true, true, true).disk == Items([e, e])
  {
    var s0 := Initial(Items([e]), NoLog);
    assert [e][..0] == [];
    assert FirstOccurrences([e]) == [e];
    var s1 := LoadStep(s0, true).state;
    assert s1.recent == [e];
    assert Unpersisted([e], {}) == [e];
    assert Written(s1) == [e, e];
  }

  /** Corrected load: the index also receives the hashes of the loaded entries. */
  function LoadIndexedStep(s: LedgerState, writeOk: bool): (r: LoadOutcome)
    ensures r.threw == LoadStep(s, writeOk).threw
    ensures r.state.persisted == if r.threw then s.persisted else s.persisted + HashesOf(LoadedCache(s.disk))
    ensures r.state.(persisted := s.persisted) == LoadStep(s, writeOk).state
  {
    var l := LoadStep(s, writeOk);
    if l.threw then l
    else l.(state := l.state.(persisted := l.state.persisted + HashesOf(l.state.fileCache)))
  }

  /** With the corrected load, a flush right after it finds nothing
      unindexed in the window and writes nothing, whatever the I/O does. */
  lemma {:induction false} IndexedLoadThenFlushWritesNothing(
    s: LedgerState, writeOk: bool, loadWriteOk: bool, tmpWriteOk: bool, renameOk: bool)
    requires !LoadIndexedStep(s, writeOk).threw
    ensures var t := LoadIndexedStep(s, writeOk).state;
      FlushStep(t, loadWriteOk, tmpWriteOk, renameOk) == t
  {
    var t := LoadIndexedStep(s, writeOk).state;
    forall i | 0 <= i < |t.recent|
      ensures t.recent[i].hash in t.persisted
    {
      HashesOfHas(t.fileCache, i);
    }
  }

  // ---------------------------------------------------------------------
  // flushNow (event log)
  // ---------------------------------------------------------------------

  /** `blockNumber ?? 0`. */
  function BlockOf(e: Event): int {
    e.blockNumber.GetOr(0)
  }

  predicate SortedDesc(es: seq<Event>) {
    forall i, j :: 0 <= i < j < |es| ==> BlockOf(es[i]) >= BlockOf(es[j])
  }

  lemma SortedCons(h: Event, t: seq<Event>)
    requires SortedDesc(t)
    requires t == [] || BlockOf(h) >= BlockOf(t[0])
    ensures SortedDesc([h] + t)
  {
    var r := [h] + t;
    forall i, j | 0 <= i < j < |r|
      ensures BlockOf(r[i]) >= BlockOf(r[j])
    {
      if i == 0 {
        assert r[j] == t[j - 1];
      } else {
        assert r[i] == t[i - 1] && r[j] == t[j - 1];
      }
    }
  }

  /** Insert `e` in front of the first element whose block number is not larger. */
  function InsertDesc(e: Event, sorted: seq<Event>): (r: seq<Event>)
    ensures multiset(r) == multiset(sorted) + multiset{e}
    ensures |r| == |sorted| + 1
    ensures r[0] == e || (sorted != [] && r[0] == sorted[0])
    ensures SortedDesc(sorted) ==> SortedDesc(r)
  {
    if sorted == [] then [e]
    else if BlockOf(e) >= BlockOf(sorted[0]) then
      if SortedDesc(sorted) then SortedCons(e, sorted); [e] + sorted
      else [e] + sorted
    else
      var rest := InsertDesc(e, sorted[1..]);
      assert sorted == [sorted[0]] + sorted[1..];
      if SortedDesc(sorted) then
        assert SortedDesc(sorted[1..]);
        SortedCons(sorted[0], rest);
        [sorted[0]] + rest
      else [sorted[0]] + rest
  }

  /** The comparator sort at server.ts:450: non-increasing block numbers, a
      missing block number counting as 0. */
  function SortByBlockDesc(es: seq<Event>): (r: seq<Event>)
    ensures SortedDesc(r)
    ensures multiset(r) == multiset(es)
  {
    if es == [] then []
    else
      assert es == [es[0]] + es[1..];
      InsertDesc(es[0], SortByBlockDesc(es[1..]))
  }

  /** The array `flushNow` reads back: the parsed array, or [] when the file
      is absent or is not an array. */
  function OldEvents(f: EventFile): seq<Event> {
    match f
    case LogItems(es) => es
    case _ => []
  }

  /** `flushNow()`. `writeOk` says whether writing the merged array succeeds.
      The pending records are sorted in place before the write, so they stay
      sorted when the write fails. */
  function FlushNowStep(s: LedgerState, writeOk: bool): (r: LedgerState)
    // nothing pending or a flush in progress: nothing happens
    ensures s.pending == [] || s.flushing ==> r == s
    // the flag is as it was on every exit
    ensures r.flushing == s.flushing
    // the settlement ledger is not touched
    ensures r.(pending := s.pending, eventLog := s.eventLog) == s
    // the pending records are cleared only by a successful write, which
    // puts them, sorted, in front of the old array
    ensures r.pending == [] && s.pending != [] ==>
      r.eventLog == LogItems(SortByBlockDesc(s.pending) + OldEvents(s.eventLog))
    ensures r.pending == [] <==> (s.pending == [] || (!s.flushing && !s.eventLog.LogUnreadable? && writeOk))
    // otherwise the log is unchanged and no record is lost
    ensures r.pending != [] ==> r.eventLog == s.eventLog && multiset(r.pending) == multiset(s.pending)
  {
    if s.pending == [] || s.flushing then s
    else if s.eventLog.LogUnreadable? then s
    else
      var sorted := SortByBlockDesc(s.pending);
      if writeOk then s.(pending := [], eventLog := LogItems(sorted + OldEvents(s.eventLog)))
      else s.(pending := sorted)
  }

  // ---------------------------------------------------------------------
  // The module state, updated in place
  // ---------------------------------------------------------------------

  class Ledger {
    var persistedHashes: set<string>
    var fileCache: seq<Record>
    var recent: seq<Record>
    var flushing: bool
    var disk: SettleFile
    var tmp: SettleFile
    var newRecords: seq<Event>
    var eventLog: EventFile

    function State(): LedgerState
      reads this
    {
      LedgerState(persistedHashes, fileCache, recent, flushing, disk, tmp, newRecords, eventLog)
    }

    constructor (settleFile: SettleFile, eventFile: EventFile)
      ensures State() == Initial(settleFile, eventFile)
    {
      persistedHashes := {};
      fileCache := [];
      recent := [];
      flushing := false;
      disk := settleFile;
      tmp := Missing;
      newRecords := [];
      eventLog := eventFile;
    }

    /** `loadSettleFile()`; `ok` is false when it throws. */
    method Load(writeOk: bool) returns (ok: bool)
      modifies this
      ensures State() == LoadStep(old(State()), writeOk).state
      ensures ok == !LoadStep(old(State()), writeOk).threw
    {
      match disk {
        case Items(xs) =>
          fileCache := Dedup(xs);
        case Missing =>
          fileCache := [];
          if !writeOk {
            ok := false;
            return;
          }
          disk := Items([]);
        case NotAnArray =>
          fileCache := [];
        case Unreadable =>
          fileCache := [];
      }
      recent := fileCache[..Min(WINDOW, |fileCache|)];
      ok := true;
    }

    /** The first-occurrence loop of the load, over a JS Map keyed by hash. */
    static method Dedup(xs: seq<Record>) returns (deduped: seq<Record>)
      ensures deduped == FirstOccurrences(xs)
    {
      var seen: set<string> := {};
      deduped := [];
      for i := 0 to |xs|
        invariant seen == KeySet(xs[..i])
        invariant deduped == FirstOccurrences(xs[..i])
      {
        var item := xs[i];
        var key := if item.hash != "" then item.hash else Serialise(item);
        assert xs[..i + 1][..i] == xs[..i];
        if key !in seen {
          seen := seen + {key};
          deduped := deduped + [item];
        }
      }
      assert xs[..|xs|] == xs;
    }

    /** The window entries whose hash is not yet indexed. */
    static method SelectNew(rs: seq<Record>, persisted: set<string>) returns (newOnes: seq<Record>)
      ensures newOnes == Unpersisted(rs, persisted)
    {
      newOnes := [];
      for i := 0 to |rs|
        invariant newOnes == Unpersisted(rs[..i], persisted)
      {
        assert rs[..i + 1][..i] == rs[..i];
        if rs[i].hash !in persisted {
          newOnes := newOnes + [rs[i]];
        }
      }
      assert rs[..|rs|] == rs;
    }

    /** Adds the hash of every written entry to the index. */
    method IndexHashes(written: seq<Record>)
      modifies this
      ensures State() == old(State()).(persisted := old(persistedHashes) + HashesOf(written))
    {
      for i := 0 to |written|
        invariant State() == old(State()).(persisted := old(persistedHashes) + HashesOf(written[..i]))
      {
        assert written[..i + 1][..i] == written[..i];
        persistedHashes := persistedHashes + {written[i].hash};
      }
      assert written[..|written|] == written;
    }

    /** `flushNewReflashData()`. */
    method FlushNewRecent(loadWriteOk: bool, tmpWriteOk: bool, renameOk: bool)
      modifies this
      ensures State() == FlushStep(old(State()), loadWriteOk, tmpWriteOk, renameOk)
    {
      if flushing {
        return;
      }
      var newOnes := SelectNew(recent, persistedHashes);
      if newOnes == [] {
        return;
      }
      flushing := true;
      var ok := Load(loadWriteOk);
      if !ok {
        flushing := false;
        return;
      }
      var reallyNew := SelectNew(newOnes, persistedHashes);
      if reallyNew == [] {
        flushing := false;
        return;
      }
      var nextFile := reallyNew + fileCache;
      if !tmpWriteOk {
        flushing := false;
        return;
      }
      tmp := Items(nextFile);
      if !renameOk {
        flushing := false;
        return;
      }
      disk := tmp;
      tmp := Missing;
      fileCache := nextFile;
      IndexHashes(reallyNew);
      flushing := false;
    }

    /** `flushNow()`. */
    method FlushNow(writeOk: bool)
      modifies this
      ensures State() == FlushNowStep(old(State()), writeOk)
    {
      if |newRecords| == 0 {
        return;
      }
      if flushing {
        return;
      }
      flushing := true;
      var oldArr: seq<Event> := [];
      match eventLog {
        case LogUnreadable =>
          flushing := false;
          return;
        case LogItems(es) =>
          oldArr := es;
        case NoLog =>
        case LogNotAnArray =>
      }
      newRecords := SortByBlockDesc(newRecords);
      var merged := newRecords + oldArr;
      if !writeOk {
        flushing := false;
        return;
      }
      eventLog := LogItems(merged);
      newRecords := [];
      flushing := false;
    }
  }
}
