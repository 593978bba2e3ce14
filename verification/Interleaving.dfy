/** The evictor is a background task: its removals may fall between any two writes of another operation. */
module Interleaving {
  import opened Basics
  import opened ChunkKey
  import opened CacheModel
  import opened Coherence
  import opened Runs

  /** What the evictor does: one unlink or one removal from the table at a time. */
  predicate IsRemoval(w: Write) {
    w.DeleteFile? || w.DeleteEntry?
  }

  /** `woven` is `log` with removals, of any chunks, put in anywhere. */
  ghost predicate Weaves(woven: Log, log: Log) {
    if woven == [] then log == []
    else
      var last, rest := woven[|woven| - 1], woven[..|woven| - 1];
      || (log != [] && log[|log| - 1] == last && Weaves(rest, log[..|log| - 1]))
      || (IsRemoval(last) && Weaves(rest, log))
  }

  /** The same upstream and records, and of the chunks at most as many files and entries. */
  ghost predicate Thinner(t: State, s: State) {
    && t.upstream == s.upstream && t.objects == s.objects
    && (forall id :: id in t.entries ==> id in s.entries && t.entries[id] == s.entries[id])
    && (forall id :: id in t.files ==> id in s.files && t.files[id] == s.files[id])
  }

  /** A write that may be made may still be made when chunks have gone. */
  lemma ThinnerAllowed(names: Naming, cs: nat, s: State, t: State, w: Write)
    requires cs > 0 && Thinner(t, s) && Allowed(names, cs, s, w)
    ensures Allowed(names, cs, t, w)
  {
    match w {
      case SetFile(_, _) =>
      case DeleteFile(_) =>
      case PutEntry(_, _) =>
      case DeleteEntry(_) =>
      case PutObject(_, _) =>
      case DeleteObject(_) =>
      case Commit(_, _) =>
      case Remove(_) =>
    }
  }

  lemma ThinnerStep(s: State, t: State, w: Write)
    requires Thinner(t, s)
    ensures Thinner(Apply(t, w), Apply(s, w))
    ensures IsRemoval(w) ==> Thinner(Apply(t, w), s)
  {
  }

  /** A disciplined log stays disciplined, and ends with the same upstream and records, whatever is woven into it. */
  lemma {:induction false} WovenDisciplined(names: Naming, cs: nat, s: State, log: Log, woven: Log)
    requires cs > 0 && Disciplined(names, cs, s, log) && Weaves(woven, log)
    ensures Disciplined(names, cs, s, woven) && Thinner(Replay(s, woven), Replay(s, log))
    decreases |woven|
  {
    if woven != [] {
      var last, rest := woven[|woven| - 1], woven[..|woven| - 1];
      assert woven == rest + [last];
      if log != [] && log[|log| - 1] == last && Weaves(rest, log[..|log| - 1]) {
        WovenDisciplined(names, cs, s, log[..|log| - 1], rest);
        ThinnerAllowed(names, cs, Replay(s, log[..|log| - 1]), Replay(s, rest), last);
        ThinnerStep(Replay(s, log[..|log| - 1]), Replay(s, rest), last);
      } else {
        WovenDisciplined(names, cs, s, log, rest);
        ThinnerStep(Replay(s, log), Replay(s, rest), last);
      }
      DisciplinedOne(names, cs, s, rest, last);
    }
  }

  lemma {:induction false} WeavesItself(log: Log)
    ensures Weaves(log, log)
  {
    if log != [] {
      WeavesItself(log[..|log| - 1]);
    }
  }

  /**
   * The evictor does no harm: the writes of an operation leave every state crash-safe if and only if they do so with
   * removals of any chunks falling between them at any point.
   */
  lemma EvictorHarmless(names: Naming, cs: nat, s: State, log: Log)
    requires cs > 0 && CrashSafe(names, cs, s)
    ensures SafeThroughout(names, cs, s, log) <==>
              forall woven :: Weaves(woven, log) ==> SafeThroughout(names, cs, s, woven)
  {
    DisciplineExactly(names, cs, s, log);
    if SafeThroughout(names, cs, s, log) {
      forall woven | Weaves(woven, log)
        ensures SafeThroughout(names, cs, s, woven)
      {
        WovenDisciplined(names, cs, s, log, woven);
        DisciplineExactly(names, cs, s, woven);
      }
    }
    WeavesItself(log);
  }

  /** An operation whose writes do not depend on the chunks that are cached. */
  predicate Blind(op: Op) {
    op.PutReq? || op.HeadReq? || op.DeleteReq? || op.OutOfBand?
  }

  /** Such an operation makes the same writes however many chunks have gone before. */
  lemma BlindLog(s: State, t: State, cs: nat, e: Event)
    requires cs > 0 && Blind(e.op) && Thinner(t, s)
    ensures LogOf(t, cs, e) == LogOf(s, cs, e)
  {
    match e.op {
      case PutReq(_, _, _, _, _, _) =>
        assert AsPut(e.op, cs, e.disk).Log(t, cs, e.disk, e.clock) == AsPut(e.op, cs, e.disk).Log(s, cs, e.disk, e.clock);
      case HeadReq(_) =>
      case DeleteReq(key, _) => assert Apply(t, Remove(key)).objects == Apply(s, Remove(key)).objects;
      case OutOfBand(_, _) =>
    }
  }

  /** The state once such an operation has ended, with the evictor at work all the while. */
  ghost predicate EndsThinner(names: Naming, cs: nat, s: State, e: Event, woven: Log)
    requires cs > 0
  {
    SafeThroughout(names, cs, s, woven) && Thinner(Replay(s, woven), Replay(s, LogOf(s, cs, e)))
  }

  /**
   * A PUT, HEAD or DELETE with the evictor at work: if the operation may be cut anywhere, every state on the way is
   * crash-safe, and the end is the end without the evictor except that chunks are missing.
   */
  lemma InterleavedSafe(names: Naming, cs: nat, s: State, e: Event, woven: Log)
    requires cs > 0 && CrashSafe(names, cs, s) && Legal(names, cs, s, e) && e.crashedAfter.Some?
    requires Weaves(woven, LogOf(s, cs, e))
    ensures EndsThinner(names, cs, s, e, woven)
  {
    GuardedExactly(names, cs, s, e);
    DisciplineExactly(names, cs, s, LogOf(s, cs, e));
    WovenDisciplined(names, cs, s, LogOf(s, cs, e), woven);
    DisciplineExactly(names, cs, s, woven);
  }
}
