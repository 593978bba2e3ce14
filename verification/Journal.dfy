/** The order of atomic writes across the database, the disk and the upstream store. */
module Journal {
  import opened CacheModel

  /** Every write of the three stores is noted here at the moment it becomes durable. */
  class Journal {
    ghost var log: Log

    constructor ()
      ensures log == []
    {
      log := [];
    }

    ghost method Note(writes: Log)
      modifies this
      ensures log == old(log) + writes
    {
      log := log + writes;
    }
  }

  lemma Regroup3(a: Log, b: Log, c: Log, d: Log)
    ensures a + b + c + d == a + (b + c + d)
  {
  }
}
