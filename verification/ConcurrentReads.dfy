/**
 * Readers and the evictor interleaved at the granularity of one database transaction or one file operation. The LRU
 * touch reads an entry and writes it back in two steps, so it can put back an entry the evictor has just removed.
 */
module ConcurrentReads {
  import opened Basics
  import opened ChunkKey
  import opened Blocks
  import opened CacheModel
  import opened Coherence
  import opened Reading

  /** Where a reader is within its current chunk. */
  datatype Phase =
    | Probing
    | Rereading
    | Touching(meta: ChunkMeta)
    | Loading
    | GoingCold
    | Finished

  /** A stream over [start, end) of an object: the chunk it is at, and what it has delivered. */
  datatype Reader = Reader(key: string, start: nat, end: nat, idx: u64, phase: Phase, delivered: seq<Piece>)

  datatype World = World(state: State, readers: seq<Reader>)

  /** A reader takes a step, or the evictor unlinks a file or removes an entry. */
  datatype Event =
    | Read(reader: nat, now: int)
    | UnlinkFile(id: ChunkId)
    | RemoveEntry(id: ChunkId)

  function Content(s: State, key: string): seq<byte>
    requires key in s.upstream
  {
    s.upstream[key].content
  }

  /** A range that the object has. */
  predicate InRange(s: State, cs: nat, r: Reader) {
    && cs > 0 && r.key in s.upstream && r.start < r.end <= |Content(s, r.key)|
    && Quotient(r.start, cs) <= r.idx <= Quotient(r.end - 1, cs)
  }

  /** The next item goes out: the stream ends on an error and after the last chunk. */
  function Deliver(s: State, cs: nat, r: Reader, p: Piece): Reader
    requires InRange(s, cs, r)
  {
    var more := r.delivered + [p];
    if p.Broken? || r.idx == Quotient(r.end - 1, cs) then r.(delivered := more, phase := Finished)
    else
      DivBounds(r.end - 1, cs);
      r.(delivered := more, phase := Probing, idx := r.idx + 1)
  }

  /** What the reader gets for its chunk: from the file if it is committed to it, otherwise from upstream. */
  function Item(s: State, cs: nat, r: Reader): Piece
    requires InRange(s, cs, r)
  {
    var size := |Content(s, r.key)|;
    WindowInsideBlock(size, cs, r.start, r.end, r.idx);
    var lo, hi := ReadStart(cs, r.start, r.idx), ReadEnd(size, cs, r.end, r.idx);
    if Committed(r.phase) then ReadFile(s.files, ChunkId(r.key, r.idx), lo - r.idx * cs, hi - lo)
    else UpstreamRange(s.upstream, r.key, lo, hi - 1)
  }

  /** The reader has seen its chunk registered and will read the file. */
  predicate Committed(p: Phase) {
    p.Rereading? || p.Touching? || p.Loading?
  }

  /** One transaction or file operation of a reader. */
  function ReaderStep(s: State, cs: nat, r: Reader, now: int): (State, Reader)
    requires InRange(s, cs, r)
  {
    var id := ChunkId(r.key, r.idx);
    match r.phase
    case Probing => (s, r.(phase := if IsHit(s, id) then Rereading else GoingCold))
    case Rereading => (s, r.(phase := if id in s.entries then Touching(s.entries[id]) else Loading))
    case Touching(meta) => (Apply(s, PutEntry(id, meta.(lastAccessedAt := now))), r.(phase := Loading))
    case Loading => (s, Deliver(s, cs, r, Item(s, cs, r)))
    case GoingCold => (s, Deliver(s, cs, r, Item(s, cs, r)))
    case Finished => (s, r)
  }

  predicate Possible(w: World, cs: nat, e: Event) {
    e.Read? ==> e.reader < |w.readers| && InRange(w.state, cs, w.readers[e.reader])
  }

  function Step(w: World, cs: nat, e: Event): World
    requires Possible(w, cs, e)
  {
    match e
    case Read(i, now) =>
      var (s, r) := ReaderStep(w.state, cs, w.readers[i], now);
      World(s, w.readers[i := r])
    case UnlinkFile(id) => w.(state := Apply(w.state, DeleteFile(id)))
    case RemoveEntry(id) => w.(state := Apply(w.state, DeleteEntry(id)))
  }

  // --- the invariant ---

  /**
   * Once a reader has seen its chunk registered, the chunk's file stays right for as long as it exists, even if the
   * entry is removed meanwhile; and so does the entry the reader is about to write back.
   */
  ghost predicate HeldRight(names: Naming, cs: nat, s: State, r: Reader)
    requires cs > 0 && r.key in s.objects
  {
    var id, record := ChunkId(r.key, r.idx), s.objects[r.key];
    && (Committed(r.phase) && id in s.files ==> FileRight(names, cs, record, r.idx, s.files[id]))
    && (r.phase.Touching? ==> EntryRight(names, cs, record, id, r.phase.meta, s.files))
  }

  /** What has been delivered so far: the bytes of the finished chunks, or a prefix of the range and then an error. */
  ghost predicate DeliveredRight(s: State, cs: nat, r: Reader)
    requires InRange(s, cs, r)
  {
    var content := Content(s, r.key);
    if r.phase.Finished? then
      Contents(r.delivered) <= content[r.start..r.end]
      && (Unbroken(r.delivered) ==> Contents(r.delivered) == content[r.start..r.end])
    else Serves(r.delivered, ServedBytes(content, cs, r.start, r.end, r.idx), true)
  }

  ghost predicate ReaderRight(names: Naming, cs: nat, s: State, r: Reader) {
    && InRange(s, cs, r) && Current(s, r.key)
    && HeldRight(names, cs, s, r) && DeliveredRight(s, cs, r)
  }

  ghost predicate Inv(names: Naming, cs: nat, w: World) {
    && cs > 0 && CrashSafe(names, cs, w.state)
    && forall i :: 0 <= i < |w.readers| ==> ReaderRight(names, cs, w.state, w.readers[i])
  }

  /** Nothing but removals and touches happens to the state: upstream and records stay, files only go. */
  ghost predicate Shrinks(s: State, t: State) {
    && t.upstream == s.upstream && t.objects == s.objects
    && forall id :: id in t.files ==> id in s.files && t.files[id] == s.files[id]
  }

  /** What other parties do does not hurt a reader. */
  lemma OthersHarmless(names: Naming, cs: nat, s: State, t: State, r: Reader)
    requires cs > 0 && ReaderRight(names, cs, s, r) && Shrinks(s, t)
    ensures ReaderRight(names, cs, t, r)
  {
  }

  /** The item of a chunk is an error or the right bytes. */
  ghost predicate ItemRight(s: State, cs: nat, r: Reader, p: Piece)
    requires InRange(s, cs, r)
  {
    var content := Content(s, r.key);
    var lo, hi := ReadStart(cs, r.start, r.idx), ReadEnd(|content|, cs, r.end, r.idx);
    0 <= lo <= hi <= |content| && (p.Data? ==> p.bytes == content[lo..hi])
  }

  /** With a right item, the chunks up to and including this one are served. */
  lemma ServedNext(s: State, cs: nat, r: Reader, p: Piece)
    requires InRange(s, cs, r) && !r.phase.Finished? && DeliveredRight(s, cs, r) && ItemRight(s, cs, r, p) && p.Data?
    ensures Serves(r.delivered + [p], ServedBytes(Content(s, r.key), cs, r.start, r.end, r.idx + 1), true)
    ensures r.idx == Quotient(r.end - 1, cs) ==>
              ServedBytes(Content(s, r.key), cs, r.start, r.end, r.idx + 1) == Content(s, r.key)[r.start..r.end]
  {
    var content := Content(s, r.key);
    var lo, hi := ReadStart(cs, r.start, r.idx), ReadEnd(|content|, cs, r.end, r.idx);
    ServesMore(r.delivered, ServedBytes(content, cs, r.start, r.end, r.idx), true, p, content[lo..hi]);
    ServedBytesStep(content, cs, r.start, r.end, r.idx + 1);
  }

  /** A reader that is not committed to a chunk holds nothing. */
  lemma Uncommitted(names: Naming, cs: nat, s: State, r: Reader)
    requires cs > 0 && Current(s, r.key) && !Committed(r.phase)
    ensures HeldRight(names, cs, s, r)
  {
  }

  /** A reader whose delivery is right is right. */
  lemma Assemble(names: Naming, cs: nat, s: State, r: Reader)
    requires InRange(s, cs, r) && Current(s, r.key) && !Committed(r.phase) && DeliveredRight(s, cs, r)
    ensures ReaderRight(names, cs, s, r)
  {
    Uncommitted(names, cs, s, r);
  }

  lemma DeliverRight(names: Naming, cs: nat, s: State, r: Reader, p: Piece)
    requires ReaderRight(names, cs, s, r) && !r.phase.Finished? && ItemRight(s, cs, r, p)
    ensures ReaderRight(names, cs, s, Deliver(s, cs, r, p))
  {
    if p.Broken? {
      DeliveredBroken(s, cs, r, p);
    } else {
      DeliveredData(s, cs, r, p);
    }
    Assemble(names, cs, s, Deliver(s, cs, r, p));
  }

  lemma DeliveredBroken(s: State, cs: nat, r: Reader, p: Piece)
    requires InRange(s, cs, r) && !r.phase.Finished? && DeliveredRight(s, cs, r) && p.Broken?
    ensures var r' := Deliver(s, cs, r, p); InRange(s, cs, r') && r'.phase.Finished? && DeliveredRight(s, cs, r')
  {
    BrokenPrefix(s, cs, r, p);
  }

  lemma DeliveredData(s: State, cs: nat, r: Reader, p: Piece)
    requires InRange(s, cs, r) && !r.phase.Finished? && DeliveredRight(s, cs, r) && ItemRight(s, cs, r, p) && p.Data?
    ensures var r' := Deliver(s, cs, r, p); InRange(s, cs, r') && !Committed(r'.phase) && DeliveredRight(s, cs, r')
  {
    ServedNext(s, cs, r, p);
  }

  /** A stream that breaks has delivered a prefix of the range. */
  lemma BrokenPrefix(s: State, cs: nat, r: Reader, p: Piece)
    requires InRange(s, cs, r) && !r.phase.Finished? && DeliveredRight(s, cs, r) && p.Broken?
    ensures var all := r.delivered + [p];
            !Unbroken(all) && Contents(all) <= Content(s, r.key)[r.start..r.end]
  {
    var content := Content(s, r.key);
    ContentsSnoc(r.delivered, p);
    FrontierBounds(|content|, cs, r.start, r.end, r.idx);
    var f := Frontier(|content|, cs, r.start, r.end, r.idx);
    SplitSlice(content, r.start, f, r.end);
  }

  /** A file that holds a chunk gives, if anything, the chunk's window. */
  lemma FileWindow(files: map<ChunkId, seq<byte>>, id: ChunkId, block: seq<byte>, content: seq<byte>, base: nat, lo: nat, hi: nat)
    requires base <= lo < hi <= |content| && hi - base <= |block| && block[lo - base..hi - base] == content[lo..hi]
    requires id in files ==> files[id] == block
    ensures ReadFile(files, id, lo - base, hi - lo) == if id in files then Data(content[lo..hi]) else Broken
  {
  }

  /** What a reader reads is described by its window. */
  lemma ItemOfWindow(s: State, cs: nat, r: Reader, base: nat, lo: nat, hi: nat)
    requires InRange(s, cs, r) && base == r.idx * cs && base <= lo < hi <= |Content(s, r.key)|
    requires lo == ReadStart(cs, r.start, r.idx) && hi == ReadEnd(|Content(s, r.key)|, cs, r.end, r.idx)
    requires Committed(r.phase) ==>
               var p := ReadFile(s.files, ChunkId(r.key, r.idx), lo - base, hi - lo);
               p.Data? ==> p.bytes == Content(s, r.key)[lo..hi]
    ensures ItemRight(s, cs, r, Item(s, cs, r))
  {
  }

  /** The window of a chunk is right, read from its file or fetched from upstream. */
  lemma ItemsRight(names: Naming, cs: nat, s: State, r: Reader)
    requires cs > 0 && CrashSafe(names, cs, s) && ReaderRight(names, cs, s, r)
    ensures ItemRight(s, cs, r, Item(s, cs, r))
  {
    var content := Content(s, r.key);
    var lo, hi := ReadStart(cs, r.start, r.idx), ReadEnd(|content|, cs, r.end, r.idx);
    WindowInsideBlock(|content|, cs, r.start, r.end, r.idx);
    WindowOfBlock(content, cs, r.start, r.end, r.idx);
    if Committed(r.phase) {
      HeldFile(names, cs, s, r);
      FileWindow(s.files, ChunkId(r.key, r.idx), Block(content, cs, r.idx), content, r.idx * cs, lo, hi);
    }
    ItemOfWindow(s, cs, r, r.idx * cs, lo, hi);
  }

  /** The file of the chunk a reader is committed to. */
  lemma HeldFile(names: Naming, cs: nat, s: State, r: Reader)
    requires cs > 0 && CrashSafe(names, cs, s) && ReaderRight(names, cs, s, r) && Committed(r.phase)
    ensures ChunkId(r.key, r.idx) in s.files ==>
              s.files[ChunkId(r.key, r.idx)] == Block(Content(s, r.key), cs, r.idx)
  {
    assert NamedBy(names, s.upstream[r.key]);
  }

  /** What a registered chunk's entry and file are. */
  lemma EntrySeen(names: Naming, cs: nat, s: State, id: ChunkId)
    requires cs > 0 && CrashSafe(names, cs, s) && Current(s, id.key) && id in s.entries
    ensures EntryRight(names, cs, s.objects[id.key], id, s.entries[id], s.files)
  {
  }

  /** Looking at an entry: the reader commits to what it saw. */
  lemma LookRight(names: Naming, cs: nat, s: State, r: Reader, now: int)
    requires cs > 0 && CrashSafe(names, cs, s) && ReaderRight(names, cs, s, r)
    requires r.phase.Probing? || r.phase.Rereading?
    ensures var (t, r') := ReaderStep(s, cs, r, now);
            t == s && ReaderRight(names, cs, t, r')
  {
    var id := ChunkId(r.key, r.idx);
    if id in s.entries {
      EntrySeen(names, cs, s, id);
    }
  }

  /** Writing an entry back is allowed, even if it has been removed meanwhile. */
  lemma TouchRight(names: Naming, cs: nat, s: State, r: Reader, now: int)
    requires cs > 0 && CrashSafe(names, cs, s) && ReaderRight(names, cs, s, r) && r.phase.Touching?
    ensures var (t, r') := ReaderStep(s, cs, r, now);
            CrashSafe(names, cs, t) && Shrinks(s, t) && ReaderRight(names, cs, t, r')
  {
    var w := PutEntry(ChunkId(r.key, r.idx), r.phase.meta.(lastAccessedAt := now));
    assert Allowed(names, cs, s, w);
    AllowedKeepsSafe(names, cs, s, w);
    OthersHarmless(names, cs, s, Apply(s, w), r);
  }

  lemma LoadRight(names: Naming, cs: nat, s: State, r: Reader, now: int)
    requires cs > 0 && CrashSafe(names, cs, s) && ReaderRight(names, cs, s, r)
    requires r.phase.Loading? || r.phase.GoingCold?
    ensures var (t, r') := ReaderStep(s, cs, r, now);
            t == s && ReaderRight(names, cs, t, r')
  {
    ItemsRight(names, cs, s, r);
    DeliverRight(names, cs, s, r, Item(s, cs, r));
  }

  /** A reader's own step keeps it right, and touches the state only in ways that keep it crash-safe. */
  lemma ReaderStepRight(names: Naming, cs: nat, s: State, r: Reader, now: int)
    requires cs > 0 && CrashSafe(names, cs, s) && ReaderRight(names, cs, s, r)
    ensures var (t, r') := ReaderStep(s, cs, r, now);
            CrashSafe(names, cs, t) && Shrinks(s, t) && ReaderRight(names, cs, t, r')
  {
    match r.phase {
      case Probing => LookRight(names, cs, s, r, now);
      case Rereading => LookRight(names, cs, s, r, now);
      case Touching(_) => TouchRight(names, cs, s, r, now);
      case Loading => LoadRight(names, cs, s, r, now);
      case GoingCold => LoadRight(names, cs, s, r, now);
      case Finished =>
    }
  }

  lemma StepKeepsInv(names: Naming, cs: nat, w: World, e: Event)
    requires Inv(names, cs, w) && Possible(w, cs, e)
    ensures Inv(names, cs, Step(w, cs, e)) && Shrinks(w.state, Step(w, cs, e).state)
  {
    var v := Step(w, cs, e);
    match e {
      case Read(i, now) => ReaderStepRight(names, cs, w.state, w.readers[i], now);
      case UnlinkFile(id) => AllowedKeepsSafe(names, cs, w.state, DeleteFile(id));
      case RemoveEntry(id) => AllowedKeepsSafe(names, cs, w.state, DeleteEntry(id));
    }
    forall i | 0 <= i < |v.readers|
      ensures ReaderRight(names, cs, v.state, v.readers[i])
    {
      if !(e.Read? && e.reader == i) {
        OthersHarmless(names, cs, w.state, v.state, w.readers[i]);
      }
    }
  }

  // --- runs ---

  predicate PossibleRun(w: World, cs: nat, run: seq<Event>)
    decreases |run|
  {
    run == [] || (Possible(w, cs, run[0]) && PossibleRun(Step(w, cs, run[0]), cs, run[1..]))
  }

  function After(w: World, cs: nat, run: seq<Event>): World
    requires PossibleRun(w, cs, run)
    decreases |run|
  {
    if run == [] then w else After(Step(w, cs, run[0]), cs, run[1..])
  }

  lemma {:induction false} RunKeepsInv(names: Naming, cs: nat, w: World, run: seq<Event>)
    requires Inv(names, cs, w) && PossibleRun(w, cs, run)
    ensures Inv(names, cs, After(w, cs, run)) && Shrinks(w.state, After(w, cs, run).state)
    decreases |run|
  {
    if run != [] {
      StepKeepsInv(names, cs, w, run[0]);
      RunKeepsInv(names, cs, Step(w, cs, run[0]), run[1..]);
    }
  }

  /** A reader at the beginning of its range. */
  predicate Fresh(s: State, cs: nat, r: Reader) {
    InRange(s, cs, r) && r.idx == Quotient(r.start, cs) && r.phase == Probing && r.delivered == []
  }

  lemma FreshRight(names: Naming, cs: nat, s: State, r: Reader)
    requires Fresh(s, cs, r) && Current(s, r.key)
    ensures ReaderRight(names, cs, s, r)
  {
    ServedBytesStep(Content(s, r.key), cs, r.start, r.end, r.idx);
  }

  /**
   * However readers and the evictor interleave, every stream delivers a prefix of the requested bytes of upstream's
   * object at every moment, and when it finishes it has delivered all of them or failed: never a wrong byte.
   */
  lemma StreamsNeverWrong(names: Naming, cs: nat, w: World, run: seq<Event>, i: nat)
    requires cs > 0 && CrashSafe(names, cs, w.state)
    requires forall j :: 0 <= j < |w.readers| ==> Fresh(w.state, cs, w.readers[j]) && Current(w.state, w.readers[j].key)
    requires PossibleRun(w, cs, run) && i < |After(w, cs, run).readers|
    ensures var v := After(w, cs, run);
            var r := v.readers[i];
            && r.key in w.state.upstream && r.start < r.end <= |Content(w.state, r.key)|
            && Contents(r.delivered) <= Content(w.state, r.key)[r.start..r.end]
            && (r.phase.Finished? && Unbroken(r.delivered) ==>
                  Contents(r.delivered) == Content(w.state, r.key)[r.start..r.end])
            && (!r.phase.Finished? ==> Unbroken(r.delivered))
  {
    forall j | 0 <= j < |w.readers|
      ensures ReaderRight(names, cs, w.state, w.readers[j])
    {
      FreshRight(names, cs, w.state, w.readers[j]);
    }
    RunKeepsInv(names, cs, w, run);
    var v := After(w, cs, run);
    var r := v.readers[i];
    assert ReaderRight(names, cs, v.state, r);
    if !r.phase.Finished? {
      ServedIsPrefix(Content(v.state, r.key), cs, r);
    }
  }

  lemma ServedIsPrefix(content: seq<byte>, cs: nat, r: Reader)
    requires cs > 0 && r.start < r.end <= |content|
    requires Quotient(r.start, cs) <= r.idx <= Quotient(r.end - 1, cs)
    ensures ServedBytes(content, cs, r.start, r.end, r.idx) <= content[r.start..r.end]
  {
    FrontierBounds(|content|, cs, r.start, r.end, r.idx);
    SplitSlice(content, r.start, Frontier(|content|, cs, r.start, r.end, r.idx), r.end);
  }

  // --- readers finish ---

  function PhaseSteps(p: Phase): nat {
    match p
    case Probing => 4
    case Rereading => 3
    case Touching(_) => 2
    case Loading => 1
    case GoingCold => 1
    case Finished => 0
  }

  /** Steps a reader has left at most: four for each chunk. */
  function StepsLeft(cs: nat, r: Reader): nat
    requires cs > 0 && r.end > 0 && r.idx <= Quotient(r.end - 1, cs)
  {
    if r.phase.Finished? then 0 else 4 * (Quotient(r.end - 1, cs) - r.idx) + PhaseSteps(r.phase)
  }

  /** No reader can be kept from finishing, whatever the evictor does. */
  lemma ReaderAdvances(s: State, cs: nat, r: Reader, now: int)
    requires InRange(s, cs, r) && !r.phase.Finished?
    ensures var r' := ReaderStep(s, cs, r, now).1;
            r'.end == r.end && r'.idx <= Quotient(r'.end - 1, cs) && StepsLeft(cs, r') < StepsLeft(cs, r)
  {
  }

  /** How often reader `i` is scheduled. */
  function Turns(run: seq<Event>, i: nat): nat {
    if run == [] then 0 else (if run[0].Read? && run[0].reader == i then 1 else 0) + Turns(run[1..], i)
  }

  /** One event of a run, as reader `i` experiences it. */
  lemma TurnAdvances(names: Naming, cs: nat, w: World, e: Event, i: nat)
    requires Inv(names, cs, w) && Possible(w, cs, e) && i < |w.readers|
    ensures |Step(w, cs, e).readers| == |w.readers|
    ensures InRange(w.state, cs, w.readers[i]) && InRange(Step(w, cs, e).state, cs, Step(w, cs, e).readers[i])
    ensures var left, left' := StepsLeft(cs, w.readers[i]), StepsLeft(cs, Step(w, cs, e).readers[i]);
            if e.Read? && e.reader == i then left' < left || left' == left == 0 else left' == left
  {
    StepKeepsInv(names, cs, w, e);
    assert ReaderRight(names, cs, w.state, w.readers[i]);
    assert ReaderRight(names, cs, Step(w, cs, e).state, Step(w, cs, e).readers[i]);
    if e.Read? && e.reader == i && !w.readers[i].phase.Finished? {
      ReaderAdvances(w.state, cs, w.readers[i], e.now);
    }
  }

  /**
   * A reader that is scheduled four times for each of its chunks has finished, whatever the other readers and the
   * evictor did in between.
   */
  lemma {:induction false} ScheduledReaderFinishes(names: Naming, cs: nat, w: World, run: seq<Event>, i: nat)
    requires Inv(names, cs, w) && PossibleRun(w, cs, run) && i < |w.readers|
    requires InRange(w.state, cs, w.readers[i]) && StepsLeft(cs, w.readers[i]) <= Turns(run, i)
    ensures i < |After(w, cs, run).readers| && After(w, cs, run).readers[i].phase.Finished?
    decreases |run|
  {
    if run != [] {
      StepKeepsInv(names, cs, w, run[0]);
      TurnAdvances(names, cs, w, run[0], i);
      ScheduledReaderFinishes(names, cs, Step(w, cs, run[0]), run[1..], i);
    }
  }

  // --- the touch that brings an entry back ---

  /** Reader `i` has read the chunk's entry and not yet written it back. */
  predicate Holds(w: World, i: nat, id: ChunkId) {
    && i < |w.readers|
    && w.readers[i].phase.Touching? && ChunkId(w.readers[i].key, w.readers[i].idx) == id
  }

  /** The step writes back a complete entry for the chunk. */
  predicate WritesBack(w: World, e: Event, id: ChunkId) {
    e.Read? && Holds(w, e.reader, id) && w.readers[e.reader].phase.meta.status.Complete?
  }

  /**
   * The one step that loses a chunk: its file is unlinked while it is registered, or a touch writes its entry when its
   * file is already gone.
   */
  lemma StepLosesExactly(w: World, cs: nat, e: Event, id: ChunkId)
    requires Possible(w, cs, e) && !Lost(w.state, id)
    ensures Lost(Step(w, cs, e).state, id)
            <==> || (e == UnlinkFile(id) && IsHit(w.state, id))
                 || (WritesBack(w, e, id) && id !in w.state.files)
  {
  }

  /** The evictor has taken both the entry and the file of the chunk. */
  predicate Removed(s: State, id: ChunkId) {
    id !in s.entries && id !in s.files
  }

  /** A reader can only hold a chunk whose entry it has seen. */
  lemma NobodyNewHolds(names: Naming, cs: nat, w: World, e: Event, id: ChunkId)
    requires Inv(names, cs, w) && Possible(w, cs, e) && Removed(w.state, id)
    requires e.Read? ==> !Holds(w, e.reader, id)
    ensures Removed(Step(w, cs, e).state, id)
    ensures forall i :: Holds(Step(w, cs, e), i, id) <==> Holds(w, i, id)
  {
  }

  /** What a reader holds is complete, so its touch writes it back. */
  lemma HoldersWriteBack(names: Naming, cs: nat, w: World, e: Event, id: ChunkId)
    requires Inv(names, cs, w) && Possible(w, cs, e) && id !in w.state.files
    ensures id !in Step(w, cs, e).state.files
    ensures e.Read? && Holds(w, e.reader, id) ==> Lost(Step(w, cs, e).state, id)
    ensures Lost(w.state, id) && e != RemoveEntry(id) ==> Lost(Step(w, cs, e).state, id)
  {
    if e.Read? && Holds(w, e.reader, id) {
      assert ReaderRight(names, cs, w.state, w.readers[e.reader]);
      assert HeldRight(names, cs, w.state, w.readers[e.reader]);
    }
  }

  /** A lost chunk stays lost until its entry is removed. */
  lemma {:induction false} StaysLost(names: Naming, cs: nat, w: World, run: seq<Event>, id: ChunkId)
    requires Inv(names, cs, w) && PossibleRun(w, cs, run) && Lost(w.state, id) && RemoveEntry(id) !in run
    ensures Lost(After(w, cs, run).state, id)
    decreases |run|
  {
    if run != [] {
      HoldersWriteBack(names, cs, w, run[0], id);
      StepKeepsInv(names, cs, w, run[0]);
      StaysLost(names, cs, Step(w, cs, run[0]), run[1..], id);
    }
  }

  /** Some reader that holds the chunk has had a turn. */
  ghost predicate HolderMoved(w: World, run: seq<Event>, id: ChunkId) {
    exists i :: Holds(w, i, id) && Turns(run, i) > 0
  }

  lemma HolderMovedNext(w: World, v: World, run: seq<Event>, id: ChunkId)
    requires run != [] && forall i :: Holds(v, i, id) <==> Holds(w, i, id)
    requires run[0].Read? ==> !Holds(w, run[0].reader, id)
    ensures HolderMoved(w, run, id) <==> HolderMoved(v, run[1..], id)
  {
    forall i | Holds(w, i, id)
      ensures Turns(run, i) == Turns(run[1..], i)
    {
    }
    if HolderMoved(w, run, id) {
      var i :| Holds(w, i, id) && Turns(run, i) > 0;
      assert Holds(v, i, id) && Turns(run[1..], i) > 0;
    }
  }

  /**
   * When the touch brings an entry back. Once the evictor has removed a chunk's file and entry, and until it removes
   * the entry again, the chunk is registered without a file if and only if some reader had read the entry before the
   * removal, had not written it back, and has taken a step since. With nobody holding the chunk it cannot happen.
   */
  lemma {:induction false} ComesBackExactly(names: Naming, cs: nat, w: World, run: seq<Event>, id: ChunkId)
    requires Inv(names, cs, w) && PossibleRun(w, cs, run) && Removed(w.state, id) && RemoveEntry(id) !in run
    ensures Lost(After(w, cs, run).state, id) <==> HolderMoved(w, run, id)
    decreases |run|
  {
    if run != [] {
      var e, v, rest := run[0], Step(w, cs, run[0]), run[1..];
      StepKeepsInv(names, cs, w, e);
      if e.Read? && Holds(w, e.reader, id) {
        HoldersWriteBack(names, cs, w, e, id);
        StaysLost(names, cs, v, rest, id);
        assert Turns(run, e.reader) > 0;
      } else {
        NobodyNewHolds(names, cs, w, e, id);
        HolderMovedNext(w, v, run, id);
        ComesBackExactly(names, cs, v, rest, id);
      }
    }
  }

  /** A reader about to touch, and an evictor that removes file and entry before it does. */
  function Resurrection(id: ChunkId, now: int): seq<Event> {
    [Read(0, now), Read(0, now), UnlinkFile(id), RemoveEntry(id), Read(0, now)]
  }

  /** A run of one more event. */
  lemma RunCons(w: World, cs: nat, e: Event, rest: seq<Event>)
    requires Possible(w, cs, e) && PossibleRun(Step(w, cs, e), cs, rest)
    ensures PossibleRun(w, cs, [e] + rest) && After(w, cs, [e] + rest) == After(Step(w, cs, e), cs, rest)
  {
    assert ([e] + rest)[1..] == rest;
  }

  /** After the five steps the chunk is registered again, without a file. */
  lemma EntryComesBack(cs: nat, w: World, now: int)
    requires |w.readers| == 1 && Fresh(w.state, cs, w.readers[0])
    requires IsHit(w.state, ChunkId(w.readers[0].key, w.readers[0].idx))
    ensures var id := ChunkId(w.readers[0].key, w.readers[0].idx);
            && PossibleRun(w, cs, Resurrection(id, now))
            && Lost(After(w, cs, Resurrection(id, now)).state, id)
  {
    var id := ChunkId(w.readers[0].key, w.readers[0].idx);
    var read, unlink, remove := Read(0, now), UnlinkFile(id), RemoveEntry(id);
    var w1 := Step(w, cs, read);
    var w2 := Step(w1, cs, read);
    var w3 := Step(w2, cs, unlink);
    var w4 := Step(w3, cs, remove);
    assert w4.readers == w2.readers;
    RunCons(w4, cs, read, []);
    RunCons(w3, cs, remove, [read] + []);
    RunCons(w2, cs, unlink, [remove] + ([read] + []));
    RunCons(w1, cs, read, [unlink] + ([remove] + ([read] + [])));
    RunCons(w, cs, read, [read] + ([unlink] + ([remove] + ([read] + []))));
    assert [read] + ([read] + ([unlink] + ([remove] + ([read] + [])))) == Resurrection(id, now);
  }

  lemma LostInRange(s: State, key: string, begin: nat, limit: nat, id: ChunkId)
    requires Lost(s, id) && id.key == key && begin <= id.idx < limit
    ensures !NoneLost(s, key, begin, limit)
  {
  }

  /** From then on every stream over that chunk breaks, until the object is dropped or replaced. */
  lemma LostChunkBreaksReads(names: Naming, cs: nat, s: State, key: string, start: nat, end: nat, id: ChunkId)
    requires cs > 0 && CrashSafe(names, cs, s) && Current(s, key) && Lost(s, id) && id.key == key
    requires start < Min(end, |Content(s, key)|)
    requires Quotient(start, cs) <= id.idx <= Quotient(Min(end, |Content(s, key)|) - 1, cs)
    ensures !Unbroken(ReadPieces(s, key, cs, |Content(s, key)|, start, end))
  {
    LostInRange(s, key, Quotient(start, cs), Quotient(Min(end, |Content(s, key)|) - 1, cs) + 1, id);
    assert !RangeOnDisk(s, key, cs, |Content(s, key)|, start, end);
    ReadRight(names, cs, s, key, start, end);
  }

  // --- when a stream breaks ---

  /** The event is a load by reader `i`, and the file it has committed to is gone. */
  predicate Misses(w: World, e: Event, i: nat) {
    && e.Read? && e.reader == i && i < |w.readers|
    && w.readers[i].phase.Loading? && ChunkId(w.readers[i].key, w.readers[i].idx) !in w.state.files
  }

  /** What a reader gets: an error if it has committed to a file that is gone, and otherwise its chunk's bytes. */
  lemma ItemExactly(names: Naming, cs: nat, s: State, r: Reader)
    requires cs > 0 && CrashSafe(names, cs, s) && ReaderRight(names, cs, s, r)
    ensures var content := Content(s, r.key);
            var lo, hi := ReadStart(cs, r.start, r.idx), ReadEnd(|content|, cs, r.end, r.idx);
            && 0 <= lo <= hi <= |content|
            && Item(s, cs, r) == if Committed(r.phase) && ChunkId(r.key, r.idx) !in s.files then Broken
                                 else Data(content[lo..hi])
  {
    var content := Content(s, r.key);
    var lo, hi := ReadStart(cs, r.start, r.idx), ReadEnd(|content|, cs, r.end, r.idx);
    WindowInsideBlock(|content|, cs, r.start, r.end, r.idx);
    WindowOfBlock(content, cs, r.start, r.end, r.idx);
    if Committed(r.phase) {
      HeldFile(names, cs, s, r);
      FileWindow(s.files, ChunkId(r.key, r.idx), Block(content, cs, r.idx), content, r.idx * cs, lo, hi);
    }
  }

  /** A step breaks a reader's stream exactly when it is a load that misses its file. */
  lemma StepBreaksExactly(names: Naming, cs: nat, w: World, e: Event, i: nat)
    requires Inv(names, cs, w) && Possible(w, cs, e) && i < |w.readers|
    ensures |Step(w, cs, e).readers| == |w.readers|
    ensures Unbroken(Step(w, cs, e).readers[i].delivered) <==> Unbroken(w.readers[i].delivered) && !Misses(w, e, i)
  {
    var r := w.readers[i];
    assert ReaderRight(names, cs, w.state, r);
    if e.Read? && e.reader == i && (r.phase.Loading? || r.phase.GoingCold?) {
      ItemExactly(names, cs, w.state, r);
      ContentsSnoc(r.delivered, Item(w.state, cs, r));
    }
  }

  /** Reader `i` misses a file at some event of the run. */
  ghost predicate MissesLater(w: World, cs: nat, run: seq<Event>, i: nat)
    requires PossibleRun(w, cs, run)
    decreases |run|
  {
    run != [] && (Misses(w, run[0], i) || MissesLater(Step(w, cs, run[0]), cs, run[1..], i))
  }

  /**
   * Over every interleaving a stream breaks if and only if the reader, having seen a chunk registered, finds its file
   * gone when it comes to load it.
   */
  lemma {:induction false} BreaksExactly(names: Naming, cs: nat, w: World, run: seq<Event>, i: nat)
    requires Inv(names, cs, w) && PossibleRun(w, cs, run) && i < |w.readers|
    ensures |After(w, cs, run).readers| == |w.readers|
    ensures Unbroken(After(w, cs, run).readers[i].delivered)
            <==> Unbroken(w.readers[i].delivered) && !MissesLater(w, cs, run, i)
    decreases |run|
  {
    if run != [] {
      StepKeepsInv(names, cs, w, run[0]);
      StepBreaksExactly(names, cs, w, run[0], i);
      BreaksExactly(names, cs, Step(w, cs, run[0]), run[1..], i);
    }
  }

  /** The chunks of an object that are registered, or that a reader has committed to, have their files. */
  ghost predicate Kept(w: World, key: string) {
    && (forall id :: id in w.state.entries && id.key == key ==> id in w.state.files)
    && (forall i :: 0 <= i < |w.readers| && w.readers[i].key == key && Committed(w.readers[i].phase) ==>
          ChunkId(key, w.readers[i].idx) in w.state.files)
  }

  /** The run unlinks no file of the object. */
  ghost predicate Spares(run: seq<Event>, key: string) {
    forall e :: e in run && e.UnlinkFile? ==> e.id.key != key
  }

  lemma StepKeepsFiles(w: World, cs: nat, e: Event, key: string)
    requires Possible(w, cs, e) && Kept(w, key) && (e.UnlinkFile? ==> e.id.key != key)
    ensures Kept(Step(w, cs, e), key)
  {
    if e.Read? {
      assert w.readers[e.reader].key == key && Committed(w.readers[e.reader].phase) ==>
          ChunkId(key, w.readers[e.reader].idx) in w.state.files;
    }
  }

  lemma {:induction false} SparedReaderMisses(w: World, cs: nat, run: seq<Event>, i: nat, key: string)
    requires PossibleRun(w, cs, run) && Kept(w, key) && Spares(run, key) && i < |w.readers| && w.readers[i].key == key
    ensures !MissesLater(w, cs, run, i)
    decreases |run|
  {
    if run != [] {
      assert run[0] in run;
      StepKeepsFiles(w, cs, run[0], key);
      assert forall e :: e in run[1..] ==> e in run;
      SparedReaderMisses(Step(w, cs, run[0]), cs, run[1..], i, key);
    }
  }

  /**
   * A stream whose object loses no file completes: scheduled four times for each chunk, it has delivered exactly the
   * requested bytes, whatever readers touch and whichever entries are evicted meanwhile.
   */
  lemma SparedReaderCompletes(names: Naming, cs: nat, w: World, run: seq<Event>, i: nat)
    requires cs > 0 && CrashSafe(names, cs, w.state)
    requires forall j :: 0 <= j < |w.readers| ==> Fresh(w.state, cs, w.readers[j]) && Current(w.state, w.readers[j].key)
    requires i < |w.readers| && PossibleRun(w, cs, run)
    requires forall id :: id in w.state.entries && id.key == w.readers[i].key ==> id in w.state.files
    requires Spares(run, w.readers[i].key)
    requires InRange(w.state, cs, w.readers[i]) && StepsLeft(cs, w.readers[i]) <= Turns(run, i)
    ensures var v, r := After(w, cs, run), w.readers[i];
            && |v.readers| == |w.readers| && v.readers[i].phase.Finished? && Unbroken(v.readers[i].delivered)
            && r.key in w.state.upstream && r.start < r.end <= |Content(w.state, r.key)|
            && Contents(v.readers[i].delivered) == Content(w.state, r.key)[r.start..r.end]
  {
    forall j | 0 <= j < |w.readers|
      ensures ReaderRight(names, cs, w.state, w.readers[j])
    {
      FreshRight(names, cs, w.state, w.readers[j]);
    }
    BreaksExactly(names, cs, w, run, i);
    SparedReaderMisses(w, cs, run, i, w.readers[i].key);
    ScheduledReaderFinishes(names, cs, w, run, i);
    StreamsNeverWrong(names, cs, w, run, i);
    RangeKept(names, cs, w, run, i);
  }

  /** A reader keeps its range. */
  lemma {:induction false} RangeKept(names: Naming, cs: nat, w: World, run: seq<Event>, i: nat)
    requires Inv(names, cs, w) && PossibleRun(w, cs, run) && i < |w.readers|
    ensures |After(w, cs, run).readers| == |w.readers|
    ensures var r, r' := w.readers[i], After(w, cs, run).readers[i]; r'.key == r.key && r'.start == r.start && r'.end == r.end
    decreases |run|
  {
    if run != [] {
      StepKeepsInv(names, cs, w, run[0]);
      RangeKept(names, cs, Step(w, cs, run[0]), run[1..], i);
    }
  }

  /** A touch stamps the entry it writes with the clock's reading. */
  lemma TouchStamps(w: World, cs: nat, i: nat, now: int)
    requires Possible(w, cs, Read(i, now)) && w.readers[i].phase.Touching?
    ensures var id, v := ChunkId(w.readers[i].key, w.readers[i].idx), Step(w, cs, Read(i, now));
            && id in v.state.entries && v.state.entries[id].lastAccessedAt == now
            && v.state.entries[id].size == w.readers[i].phase.meta.size
            && (forall other :: other != id ==>
                  (other in v.state.entries <==> other in w.state.entries)
                  && (other in w.state.entries ==> v.state.entries[other] == w.state.entries[other]))
  {
  }
}
