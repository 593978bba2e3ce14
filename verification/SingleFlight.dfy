/**
 * The single-flight download protocol, run by any number of callers over a shared map of watch channels. Every map
 * operation, send, removal, wake-up and database access is one step, and callers interleave freely with each other
 * and with evictions.
 */
module SingleFlight {
  import opened Basics

  /** The chunk's key in the map of active downloads. */
  type Key = string

  datatype Status = Pending | Complete | Failed

  /** A watch channel: how often it was sent to, its value, and whether its sender still exists. */
  datatype Channel = Channel(version: nat, status: Status, open: bool)

  /** Where a caller is. A channel is named after the caller that inserted it. */
  datatype Place =
    | CheckDb
    | Touching(size: nat)
    | Lookup
    | Waiting(owner: nat, seen: nat)
    | Registering
    | Fetching
    | Storing(size: nat)
    | Recording(size: nat)
    | Sending(ok: bool)
    | Removing(ok: bool)
    | Returned(ok: bool)

  /** What the callers want: the chunk and its exact size. */
  datatype Request = Request(key: Key, size: nat)

  datatype World = World(
    places: seq<Place>,
    active: map<Key, nat>,
    channels: map<nat, Channel>,
    db: map<Key, nat>,
    recorded: set<Key>)

  /** What the environment decides: the length that was fetched, if any, and whether the disk takes the chunk. */
  datatype Choice = Choice(fetched: Option<nat>, stored: bool)

  datatype Event = Act(caller: nat, choice: Choice) | EvictEntry(key: Key)

  type Requests = seq<Request>

  /** Between inserting its channel and removing it. */
  predicate Between(p: Place) {
    p.Fetching? || p.Storing? || p.Recording? || p.Sending? || p.Removing?
  }

  /** A waiter sleeps until its channel has news or loses its sender; every other unfinished caller can move. */
  predicate Enabled(w: World, i: nat)
    requires i < |w.places|
  {
    match w.places[i]
    case Returned(_) => false
    case Waiting(owner, seen) =>
      owner in w.channels && (w.channels[owner].version != seen || !w.channels[owner].open)
    case _ => true
  }

  function Move(w: World, i: nat, p: Place): World
    requires i < |w.places|
  {
    w.(places := w.places[i := p])
  }

  /** One step of caller `i`. */
  function CallerStep(rs: Requests, w: World, i: nat, choice: Choice): World
    requires |rs| == |w.places| && i < |rs| && Enabled(w, i)
  {
    var key := rs[i].key;
    match w.places[i]
    case CheckDb => Move(w, i, if key in w.db then Touching(w.db[key]) else Lookup)
    case Touching(size) => Move(w.(db := w.db[key := size]), i, Returned(true))
    case Lookup => Move(w, i, if key in w.active then Waiting(w.active[key], 0) else Registering)
    case Waiting(owner, seen) =>
      var channel := w.channels[owner];
      if channel.version == seen then Move(w, i, Lookup)
      else
        (match channel.status
         case Complete => Move(w, i, Returned(true))
         case Failed => Move(w, i, Returned(false))
         case Pending => Move(w, i, Waiting(owner, channel.version)))
    case Registering =>
      if key in w.active then Move(w, i, Lookup)
      else Move(w.(active := w.active[key := i], channels := w.channels[i := Channel(0, Pending, true)]), i, Fetching)
    case Fetching =>
      (match choice.fetched
       case None => Move(w, i, Sending(false))
       case Some(length) => Move(w, i, if length != rs[i].size then Sending(false) else Storing(length)))
    case Storing(size) => Move(w, i, if choice.stored then Recording(size) else Sending(false))
    case Recording(size) =>
      Move(w.(db := w.db[key := size], recorded := w.recorded + {key}), i, Sending(true))
    case Sending(ok) =>
      var version := if i in w.channels then w.channels[i].version + 1 else 0;
      Move(w.(channels := w.channels[i := Channel(version, if ok then Complete else Failed, true)]), i, Removing(ok))
    case Removing(ok) =>
      var closed := if i in w.channels then w.channels[i := w.channels[i].(open := false)] else w.channels;
      Move(w.(active := w.active - {key}, channels := closed), i, Returned(ok))
    case Returned(_) => w
  }

  predicate Possible(rs: Requests, w: World, e: Event) {
    |rs| == |w.places| && (e.Act? ==> e.caller < |rs| && Enabled(w, e.caller))
  }

  function Step(rs: Requests, w: World, e: Event): World
    requires Possible(rs, w, e)
  {
    match e
    case Act(i, choice) => CallerStep(rs, w, i, choice)
    case EvictEntry(key) => w.(db := w.db - {key})
  }

  // --- the invariant ---

  /** Caller `i` is between insert and remove exactly when the map holds its key for it. */
  ghost predicate CallerMapped(rs: Requests, w: World, i: nat)
    requires |rs| == |w.places| && i < |rs|
  {
    Between(w.places[i]) <==> rs[i].key in w.active && w.active[rs[i].key] == i
  }

  /** A key in the map is there for a caller that asked for it. */
  ghost predicate KeyOwned(rs: Requests, w: World, key: Key) {
    key in w.active ==> w.active[key] < |rs| && rs[w.active[key]].key == key
  }

  /** A channel was inserted by its owner; it has news exactly when the owner has sent, and then the final status. */
  ghost predicate ChannelRight(rs: Requests, w: World, i: nat)
    requires |rs| == |w.places|
  {
    && (i in w.channels ==> i < |rs| && (Between(w.places[i]) || w.places[i].Returned?))
    && (i < |rs| && Between(w.places[i]) ==> i in w.channels)
    && (i in w.channels && i < |rs| ==>
          match w.places[i]
          case Removing(ok) => w.channels[i] == Channel(1, if ok then Complete else Failed, true)
          case Returned(ok) => w.channels[i] == Channel(1, if ok then Complete else Failed, false)
          case _ => w.channels[i] == Channel(0, Pending, true))
  }

  /** What a caller has seen and done so far. */
  ghost predicate PlaceRight(rs: Requests, w: World, i: nat)
    requires |rs| == |w.places| && i < |rs|
  {
    match w.places[i]
    case Touching(size) => rs[i].key in w.recorded && size == rs[i].size
    case Waiting(owner, seen) =>
      seen == 0 && owner < |rs| && owner in w.channels && rs[owner].key == rs[i].key
    case Storing(size) => size == rs[i].size
    case Recording(size) => size == rs[i].size
    case Sending(ok) => ok ==> rs[i].key in w.recorded
    case Removing(ok) => ok ==> rs[i].key in w.recorded
    case Returned(ok) => ok ==> rs[i].key in w.recorded
    case _ => true
  }

  /** Callers that want the same chunk want the same size. */
  predicate Consistent(rs: Requests) {
    forall i, j :: 0 <= i < |rs| && 0 <= j < |rs| && rs[i].key == rs[j].key ==> rs[i].size == rs[j].size
  }

  /** Entries in the table have been recorded with the exact size. */
  ghost predicate DbRight(rs: Requests, w: World) {
    && (forall k :: k in w.db ==> k in w.recorded)
    && (forall i :: 0 <= i < |rs| && rs[i].key in w.db ==> w.db[rs[i].key] == rs[i].size)
  }

  ghost predicate Inv(rs: Requests, w: World) {
    && |rs| == |w.places| && Consistent(rs)
    && (forall i: nat :: i < |rs| ==> CallerMapped(rs, w, i))
    && (forall key: Key :: KeyOwned(rs, w, key))
    && (forall i: nat :: ChannelRight(rs, w, i))
    && (forall i: nat :: i < |rs| ==> PlaceRight(rs, w, i))
    && DbRight(rs, w)
  }

  /** Every caller is about to start; the table holds only exact entries, and nothing else has been recorded. */
  ghost predicate Start(rs: Requests, w: World) {
    && |rs| == |w.places| && Consistent(rs) && w.recorded == w.db.Keys
    && (forall i :: 0 <= i < |rs| ==> w.places[i] == CheckDb)
    && w.active == map[] && w.channels == map[] && DbRight(rs, w)
  }

  lemma StartInv(rs: Requests, w: World)
    requires Start(rs, w)
    ensures Inv(rs, w)
  {
  }

  lemma StepKeepsMap(rs: Requests, w: World, e: Event, i: nat)
    requires Possible(rs, w, e) && Inv(rs, w) && i < |rs|
    ensures |rs| == |Step(rs, w, e).places| && CallerMapped(rs, Step(rs, w, e), i)
  {
    assert CallerMapped(rs, w, i);
    if e.Act? {
      assert CallerMapped(rs, w, e.caller);
    }
  }

  lemma StepKeepsKeys(rs: Requests, w: World, e: Event, key: Key)
    requires Possible(rs, w, e) && Inv(rs, w)
    ensures KeyOwned(rs, Step(rs, w, e), key)
  {
    assert KeyOwned(rs, w, key);
  }

  lemma StepKeepsChannels(rs: Requests, w: World, e: Event, i: nat)
    requires Possible(rs, w, e) && Inv(rs, w)
    ensures |rs| == |Step(rs, w, e).places| && ChannelRight(rs, Step(rs, w, e), i)
  {
    assert ChannelRight(rs, w, i);
    if e.Act? {
      if e.caller == i {
        OwnChannel(rs, w, i, e.choice);
      } else {
        OthersChannel(rs, w, e.caller, e.choice, i);
      }
    }
  }

  /** A caller changes its own channel only, and only when it inserts, sends or removes. */
  lemma OthersChannel(rs: Requests, w: World, caller: nat, choice: Choice, i: nat)
    requires Possible(rs, w, Act(caller, choice)) && i != caller
    ensures var v := CallerStep(rs, w, caller, choice);
            && |v.places| == |w.places|
            && (i in v.channels <==> i in w.channels) && (i in w.channels ==> v.channels[i] == w.channels[i])
            && (i < |rs| ==> v.places[i] == w.places[i])
  {
  }

  lemma OwnChannel(rs: Requests, w: World, i: nat, choice: Choice)
    requires Possible(rs, w, Act(i, choice)) && ChannelRight(rs, w, i)
    ensures |rs| == |CallerStep(rs, w, i, choice).places| && ChannelRight(rs, CallerStep(rs, w, i, choice), i)
  {
    match w.places[i] {
      case CheckDb =>
      case Touching(_) =>
      case Lookup =>
      case Waiting(_, _) =>
      case Registering =>
      case Fetching =>
      case Storing(_) =>
      case Recording(_) =>
      case Sending(_) =>
      case Removing(_) =>
    }
  }

  /** The channel a caller is about to wait on, or wakes up from, is its key's. */
  lemma WaitsOnOwner(rs: Requests, w: World, i: nat)
    requires Inv(rs, w) && i < |rs|
    ensures w.places[i].Lookup? && rs[i].key in w.active ==>
              var owner := w.active[rs[i].key];
              owner < |rs| && owner in w.channels && rs[owner].key == rs[i].key
    ensures w.places[i].Waiting? ==>
              var owner := w.places[i].owner;
              && owner < |rs| && owner in w.channels && w.places[i].seen == 0
              && (w.channels[owner].version == 0 || w.channels[owner].version == 1)
              && (w.channels[owner].version == 0 <==> w.channels[owner].status.Pending?)
              && (w.channels[owner].version == 0 ==> Between(w.places[owner]) && w.channels[owner].open)
              && (w.channels[owner].status.Complete? ==> rs[i].key in w.recorded)
  {
    assert PlaceRight(rs, w, i);
    if w.places[i].Lookup? && rs[i].key in w.active {
      assert KeyOwned(rs, w, rs[i].key);
      assert CallerMapped(rs, w, w.active[rs[i].key]);
      assert ChannelRight(rs, w, w.active[rs[i].key]);
    }
    if w.places[i].Waiting? {
      assert ChannelRight(rs, w, w.places[i].owner);
      assert PlaceRight(rs, w, w.places[i].owner);
    }
  }

  /** Records and channels are never taken back. */
  lemma StepGrows(rs: Requests, w: World, e: Event)
    requires Possible(rs, w, e)
    ensures w.recorded <= Step(rs, w, e).recorded
    ensures forall owner :: owner in w.channels ==> owner in Step(rs, w, e).channels
  {
  }

  lemma StepKeepsPlaces(rs: Requests, w: World, e: Event, i: nat)
    requires Possible(rs, w, e) && Inv(rs, w) && i < |rs|
    ensures |rs| == |Step(rs, w, e).places| && PlaceRight(rs, Step(rs, w, e), i)
  {
    assert PlaceRight(rs, w, i);
    StepGrows(rs, w, e);
    if e.Act? {
      if e.caller == i {
        WaitsOnOwner(rs, w, i);
        OwnPlace(rs, w, i, e.choice);
      } else {
        OthersChannel(rs, w, e.caller, e.choice, i);
      }
    }
  }

  /** Where a caller gets to, given what it can know about the channel it looks up or waits on. */
  lemma OwnPlace(rs: Requests, w: World, i: nat, choice: Choice)
    requires Possible(rs, w, Act(i, choice)) && PlaceRight(rs, w, i) && DbRight(rs, w)
    requires w.places[i].Lookup? && rs[i].key in w.active ==>
               var owner := w.active[rs[i].key];
               owner < |rs| && owner in w.channels && rs[owner].key == rs[i].key
    requires w.places[i].Waiting? ==>
               var channel := w.channels[w.places[i].owner];
               && (channel.version == 0 <==> channel.status.Pending?)
               && (channel.version == 0 ==> channel.open)
               && (channel.status.Complete? ==> rs[i].key in w.recorded)
    ensures |rs| == |CallerStep(rs, w, i, choice).places| && PlaceRight(rs, CallerStep(rs, w, i, choice), i)
  {
    match w.places[i] {
      case CheckDb =>
      case Touching(_) =>
      case Lookup =>
      case Waiting(_, _) =>
      case Registering =>
      case Fetching =>
      case Storing(_) =>
      case Recording(_) =>
      case Sending(_) =>
      case Removing(_) =>
    }
  }

  lemma StepKeepsDb(rs: Requests, w: World, e: Event)
    requires Possible(rs, w, e) && Inv(rs, w)
    ensures DbRight(rs, Step(rs, w, e))
  {
    if e.Act? {
      assert PlaceRight(rs, w, e.caller);
    }
  }

  lemma StepKeepsInv(rs: Requests, w: World, e: Event)
    requires Possible(rs, w, e) && Inv(rs, w)
    ensures Inv(rs, Step(rs, w, e))
  {
    StepKeepsDb(rs, w, e);
    forall key: Key
      ensures KeyOwned(rs, Step(rs, w, e), key)
    {
      StepKeepsKeys(rs, w, e, key);
    }
    forall i: nat
      ensures |rs| == |Step(rs, w, e).places|
      ensures ChannelRight(rs, Step(rs, w, e), i)
      ensures i < |rs| ==> CallerMapped(rs, Step(rs, w, e), i) && PlaceRight(rs, Step(rs, w, e), i)
    {
      StepKeepsChannels(rs, w, e, i);
      if i < |rs| {
        StepKeepsMap(rs, w, e, i);
        StepKeepsPlaces(rs, w, e, i);
      }
    }
  }

  // --- safety ---

  /**
   * At most one download per chunk: a key is in the map exactly when some caller for it is between insert and
   * remove, and then there is only one.
   */
  lemma SingleDownload(rs: Requests, w: World, key: Key)
    requires Inv(rs, w)
    ensures key in w.active <==> exists i :: 0 <= i < |rs| && rs[i].key == key && Between(w.places[i])
    ensures forall i, j | 0 <= i < |rs| && 0 <= j < |rs| && rs[i].key == rs[j].key == key ::
              Between(w.places[i]) && Between(w.places[j]) ==> i == j
  {
    if key in w.active {
      assert KeyOwned(rs, w, key);
      assert CallerMapped(rs, w, w.active[key]);
    }
    forall i | 0 <= i < |rs| && rs[i].key == key && Between(w.places[i])
      ensures key in w.active && w.active[key] == i
    {
      assert CallerMapped(rs, w, i);
    }
  }

  /** Whoever looks the channel up after the send but before the removal still gets the final status. */
  lemma LateSubscriber(rs: Requests, w: World, i: nat, a: Choice, b: Choice)
    requires Inv(rs, w) && i < |rs| && w.places[i] == Lookup && rs[i].key in w.active
    requires w.active[rs[i].key] < |rs| && w.places[w.active[rs[i].key]].Removing?
    ensures Possible(rs, w, Act(i, a))
    ensures var v := Step(rs, w, Act(i, a));
            && Possible(rs, v, Act(i, b))
            && Step(rs, v, Act(i, b)).places[i] == Returned(w.places[w.active[rs[i].key]].ok)
  {
    WaitsOnOwner(rs, w, i);
    assert ChannelRight(rs, w, w.active[rs[i].key]);
  }

  // --- progress ---

  /** Nobody waits for ever: as long as a caller has not returned, some caller can move. */
  lemma NoDeadlock(rs: Requests, w: World, i: nat)
    requires Inv(rs, w) && i < |rs| && !w.places[i].Returned?
    ensures exists j :: 0 <= j < |rs| && Enabled(w, j)
  {
    if !Enabled(w, i) {
      WaitsOnOwner(rs, w, i);
      assert Enabled(w, w.places[i].owner);
    }
  }

  /** A caller that found no channel but will find one when it tries to insert its own. */
  predicate Doomed(rs: Requests, w: World, i: nat)
    requires |rs| == |w.places| && i < |rs|
  {
    w.places[i].Registering? && rs[i].key in w.active
  }

  /** Has the caller still the chance to insert a channel? */
  predicate MayInsert(p: Place) {
    p.CheckDb? || p.Lookup? || p.Registering?
  }

  /** Steps a caller has left, counting a lost race against the insertion that causes it. */
  function Rank(rs: Requests, w: World, i: nat): nat
    requires |rs| == |w.places| && i < |rs|
  {
    match w.places[i]
    case CheckDb => 12
    case Registering => if Doomed(rs, w, i) then 11 else 9
    case Lookup => 10
    case Fetching => 8
    case Storing(_) => 7
    case Recording(_) => 6
    case Sending(_) => 5
    case Removing(_) => 4
    case Waiting(_, _) => 2
    case Touching(_) => 1
    case Returned(_) => 0
  }

  function Weight(rs: Requests, w: World, i: nat): nat
    requires |rs| == |w.places| && i < |rs|
  {
    Rank(rs, w, i) + (if MayInsert(w.places[i]) then 2 * |rs| else 0)
  }

  /** The weights of the first `n` callers. */
  function Measure(rs: Requests, w: World, n: nat): nat
    requires |rs| == |w.places| && n <= |rs|
  {
    if n == 0 then 0 else Measure(rs, w, n - 1) + Weight(rs, w, n - 1)
  }

  /** Does the step insert a channel, and so may doom others? */
  predicate Inserts(rs: Requests, w: World, i: nat)
    requires |rs| == |w.places| && i < |rs|
  {
    w.places[i].Registering? && !Doomed(rs, w, i)
  }

  /** What an insertion may cost `n` other callers: two each. */
  function Price(inserts: bool, n: nat): nat {
    if inserts then 2 * n else 0
  }

  /** Caller `j` is no heavier than the price allows, and the moving caller `i` pays for all. */
  ghost predicate PaidFor(rs: Requests, w: World, v: World, i: nat, inserts: bool, j: nat)
    requires |rs| == |w.places| == |v.places| && j < |rs|
  {
    if j == i then Weight(rs, v, j) + Price(inserts, |rs|) < Weight(rs, w, j)
    else Weight(rs, v, j) <= Weight(rs, w, j) + Price(inserts, 1)
  }

  /** The moving caller pays for what its step costs the others. */
  lemma StepWeights(rs: Requests, w: World, i: nat, choice: Choice, j: nat)
    requires Inv(rs, w) && Possible(rs, w, Act(i, choice)) && j < |rs|
    ensures |Step(rs, w, Act(i, choice)).places| == |rs|
    ensures PaidFor(rs, w, Step(rs, w, Act(i, choice)), i, Inserts(rs, w, i), j)
  {
    WaitsOnOwner(rs, w, i);
    assert CallerMapped(rs, w, i);
  }

  lemma {:induction false} MeasureDrops(rs: Requests, w: World, v: World, i: nat, inserts: bool, n: nat)
    requires |rs| == |w.places| == |v.places| && i < |rs| && n <= |rs|
    requires forall j: nat :: j < |rs| ==> PaidFor(rs, w, v, i, inserts, j)
    ensures i < n ==> Measure(rs, v, n) + Price(inserts, |rs|) < Measure(rs, w, n) + Price(inserts, n)
    ensures i >= n ==> Measure(rs, v, n) <= Measure(rs, w, n) + Price(inserts, n)
  {
    if n > 0 {
      MeasureDrops(rs, w, v, i, inserts, n - 1);
      assert PaidFor(rs, w, v, i, inserts, n - 1);
    }
  }

  /** Every step of a caller brings the end nearer; evictions do not move it away. */
  lemma Progress(rs: Requests, w: World, e: Event)
    requires Inv(rs, w) && Possible(rs, w, e)
    ensures |Step(rs, w, e).places| == |rs|
    ensures e.Act? ==> Measure(rs, Step(rs, w, e), |rs|) < Measure(rs, w, |rs|)
    ensures e.EvictEntry? ==> Measure(rs, Step(rs, w, e), |rs|) == Measure(rs, w, |rs|)
  {
    if e.Act? {
      forall j: nat | j < |rs|
        ensures |Step(rs, w, e).places| == |rs|
        ensures PaidFor(rs, w, Step(rs, w, e), e.caller, Inserts(rs, w, e.caller), j)
      {
        StepWeights(rs, w, e.caller, e.choice, j);
      }
      StepWeights(rs, w, e.caller, e.choice, e.caller);
      MeasureDrops(rs, w, Step(rs, w, e), e.caller, Inserts(rs, w, e.caller), |rs|);
    } else {
      SameMeasure(rs, w, Step(rs, w, e), |rs|);
    }
  }

  lemma {:induction false} SameMeasure(rs: Requests, w: World, v: World, n: nat)
    requires |rs| == |w.places| && n <= |rs| && v.places == w.places && v.active == w.active
    ensures Measure(rs, v, n) == Measure(rs, w, n)
  {
    if n > 0 {
      SameMeasure(rs, w, v, n - 1);
    }
  }

  // --- runs ---

  /** Every event is possible when it happens. */
  predicate PossibleRun(rs: Requests, w: World, run: seq<Event>)
    decreases |run|
  {
    run == [] || (Possible(rs, w, run[0]) && PossibleRun(rs, Step(rs, w, run[0]), run[1..]))
  }

  function After(rs: Requests, w: World, run: seq<Event>): World
    requires PossibleRun(rs, w, run)
    decreases |run|
  {
    if run == [] then w else After(rs, Step(rs, w, run[0]), run[1..])
  }

  /** Steps taken by callers. */
  function CallerSteps(run: seq<Event>): nat {
    if run == [] then 0 else (if run[0].Act? then 1 else 0) + CallerSteps(run[1..])
  }

  /** In every state of every run the invariant holds, and the callers' steps are paid for. */
  lemma {:induction false} RunKeepsInv(rs: Requests, w: World, run: seq<Event>)
    requires Inv(rs, w) && PossibleRun(rs, w, run)
    ensures Inv(rs, After(rs, w, run))
    ensures CallerSteps(run) + Measure(rs, After(rs, w, run), |rs|) <= Measure(rs, w, |rs|)
    decreases |run|
  {
    if run != [] {
      StepKeepsInv(rs, w, run[0]);
      Progress(rs, w, run[0]);
      RunKeepsInv(rs, Step(rs, w, run[0]), run[1..]);
    }
  }

  lemma {:induction false} StartMeasure(rs: Requests, w: World, n: nat)
    requires Start(rs, w) && n <= |rs|
    ensures Measure(rs, w, n) == n * (2 * |rs| + 12)
  {
    if n > 0 {
      StartMeasure(rs, w, n - 1);
      assert n * (2 * |rs| + 12) == (n - 1) * (2 * |rs| + 12) + (2 * |rs| + 12);
    }
  }

  /**
   * Termination: N callers take at most N * (2N + 12) steps between them, however they and the evictor are
   * interleaved; and when no caller can move any more, all have returned.
   */
  lemma EveryRunEnds(rs: Requests, w: World, run: seq<Event>)
    requires Start(rs, w) && PossibleRun(rs, w, run)
    ensures CallerSteps(run) <= |rs| * (2 * |rs| + 12)
    ensures var v := After(rs, w, run);
            && |v.places| == |rs|
            && ((forall j :: 0 <= j < |rs| ==> !Enabled(v, j)) ==> forall i :: 0 <= i < |rs| ==> v.places[i].Returned?)
  {
    StartInv(rs, w);
    RunKeepsInv(rs, w, run);
    StartMeasure(rs, w, |rs|);
    var v := After(rs, w, run);
    forall i: nat | i < |rs| && !v.places[i].Returned?
      ensures exists j :: 0 <= j < |rs| && Enabled(v, j)
    {
      NoDeadlock(rs, v, i);
    }
  }

  /** Caller `j` records key `key` with `size` bytes at the first event of some rest of the run. */
  ghost predicate RecordsLater(rs: Requests, w: World, run: seq<Event>, key: Key)
    requires PossibleRun(rs, w, run)
    decreases |run|
  {
    run != [] &&
    (|| (run[0].Act? && rs[run[0].caller].key == key && w.places[run[0].caller] == Recording(rs[run[0].caller].size))
     || RecordsLater(rs, Step(rs, w, run[0]), run[1..], key))
  }

  lemma {:induction false} RecordedInRun(rs: Requests, w: World, run: seq<Event>, key: Key)
    requires Inv(rs, w) && PossibleRun(rs, w, run) && key in After(rs, w, run).recorded
    ensures key in w.recorded || RecordsLater(rs, w, run, key)
    decreases |run|
  {
    if run != [] {
      StepKeepsInv(rs, w, run[0]);
      RecordedInRun(rs, Step(rs, w, run[0]), run[1..], key);
      if run[0].Act? {
        assert PlaceRight(rs, w, run[0].caller);
      }
    }
  }

  /**
   * A caller returns Ok only if the chunk has been registered as complete with exactly the bytes it asked for: it is
   * in the table when the run starts, or a download of the run records it.
   */
  lemma OkMeansRecorded(rs: Requests, w: World, run: seq<Event>, i: nat)
    requires Start(rs, w) && PossibleRun(rs, w, run) && i < |rs|
    requires |After(rs, w, run).places| == |rs| && After(rs, w, run).places[i] == Returned(true)
    ensures (rs[i].key in w.db && w.db[rs[i].key] == rs[i].size) || RecordsLater(rs, w, run, rs[i].key)
  {
    StartInv(rs, w);
    RunKeepsInv(rs, w, run);
    assert PlaceRight(rs, After(rs, w, run), i);
    RecordedInRun(rs, w, run, rs[i].key);
  }

  // --- success ---

  /** The caller is on its way out with an error. */
  predicate Failing(p: Place) {
    p == Sending(false) || p == Removing(false) || p == Returned(false)
  }

  /** No caller for `key` is. */
  ghost predicate NoFailure(rs: Requests, w: World, key: Key)
    requires |rs| == |w.places|
  {
    forall i :: 0 <= i < |rs| && rs[i].key == key ==> !Failing(w.places[i])
  }

  /** A download of `key` goes wrong: upstream fails or answers with another length, or the disk refuses the chunk. */
  predicate DownloadFails(rs: Requests, w: World, e: Event, key: Key)
    requires |rs| == |w.places|
  {
    && e.Act? && e.caller < |rs| && rs[e.caller].key == key
    && (|| (w.places[e.caller].Fetching? && e.choice.fetched != Some(rs[e.caller].size))
        || (w.places[e.caller].Storing? && !e.choice.stored))
  }

  /** A waiter that wakes up returns what the downloader it waited for ended with. */
  lemma WaiterFollows(rs: Requests, w: World, i: nat, choice: Choice)
    requires Inv(rs, w) && i < |rs| && w.places[i].Waiting? && Enabled(w, i)
    ensures var owner := w.places[i].owner;
            && owner < |rs| && rs[owner].key == rs[i].key && (w.places[owner].Removing? || w.places[owner].Returned?)
            && CallerStep(rs, w, i, choice).places[i] == Returned(w.places[owner].ok)
  {
    WaitsOnOwner(rs, w, i);
    assert PlaceRight(rs, w, i);
    assert ChannelRight(rs, w, w.places[i].owner);
  }

  /** Without a failed download nobody starts to fail. */
  lemma StepFails(rs: Requests, w: World, e: Event, key: Key)
    requires Inv(rs, w) && Possible(rs, w, e) && NoFailure(rs, w, key) && !DownloadFails(rs, w, e, key)
    ensures |rs| == |Step(rs, w, e).places| && NoFailure(rs, Step(rs, w, e), key)
  {
    if e.Act? {
      if w.places[e.caller].Waiting? {
        WaiterFollows(rs, w, e.caller, e.choice);
      }
      forall i | 0 <= i < |rs| && rs[i].key == key
        ensures !Failing(Step(rs, w, e).places[i])
      {
        if i == e.caller {
          OwnStepFails(rs, w, i, e.choice);
        } else {
          OthersChannel(rs, w, e.caller, e.choice, i);
        }
      }
    }
  }

  lemma OwnStepFails(rs: Requests, w: World, i: nat, choice: Choice)
    requires Possible(rs, w, Act(i, choice)) && !Failing(w.places[i]) && !DownloadFails(rs, w, Act(i, choice), rs[i].key)
    requires w.places[i].Waiting? ==> !Failing(CallerStep(rs, w, i, choice).places[i])
    ensures !Failing(CallerStep(rs, w, i, choice).places[i])
  {
    match w.places[i] {
      case CheckDb =>
      case Touching(_) =>
      case Lookup =>
      case Waiting(_, _) =>
      case Registering =>
      case Fetching =>
      case Storing(_) =>
      case Recording(_) =>
      case Sending(_) =>
      case Removing(_) =>
      case Returned(_) =>
    }
  }

  /** A download of `key` fails at some event of the run. */
  ghost predicate FailsLater(rs: Requests, w: World, run: seq<Event>, key: Key)
    requires PossibleRun(rs, w, run)
    decreases |run|
  {
    run != [] && (DownloadFails(rs, w, run[0], key) || FailsLater(rs, Step(rs, w, run[0]), run[1..], key))
  }

  lemma {:induction false} FailedInRun(rs: Requests, w: World, run: seq<Event>, key: Key)
    requires Inv(rs, w) && NoFailure(rs, w, key) && PossibleRun(rs, w, run) && !FailsLater(rs, w, run, key)
    ensures |rs| == |After(rs, w, run).places| && NoFailure(rs, After(rs, w, run), key)
    decreases |run|
  {
    if run != [] {
      StepKeepsInv(rs, w, run[0]);
      StepFails(rs, w, run[0], key);
      FailedInRun(rs, Step(rs, w, run[0]), run[1..], key);
    }
  }

  /**
   * Errors have a cause: unless a download of the chunk fails in the run, every caller for it that returns returns Ok,
   * whether it hit, downloaded or waited; and when no caller can move any more, all of them have.
   */
  lemma OkUnlessFailed(rs: Requests, w: World, run: seq<Event>, i: nat)
    requires Start(rs, w) && PossibleRun(rs, w, run) && i < |rs| && !FailsLater(rs, w, run, rs[i].key)
    ensures var v := After(rs, w, run);
            && |v.places| == |rs|
            && (v.places[i].Returned? ==> v.places[i] == Returned(true))
            && ((forall j :: 0 <= j < |rs| ==> !Enabled(v, j)) ==> v.places[i] == Returned(true))
  {
    StartInv(rs, w);
    FailedInRun(rs, w, run, rs[i].key);
    EveryRunEnds(rs, w, run);
    assert !Failing(After(rs, w, run).places[i]);
  }

  /** A hit returns Ok in two steps of its own, without touching the map or any channel, whoever runs in between. */
  lemma HitReturns(rs: Requests, w: World, i: nat, a: Choice, b: Choice)
    requires |rs| == |w.places| && i < |rs| && w.places[i] == CheckDb && rs[i].key in w.db
    ensures var v := CallerStep(rs, w, i, a);
            && v == Move(w, i, Touching(w.db[rs[i].key]))
            && |rs| == |v.places| && Enabled(v, i)
            && var u := CallerStep(rs, v, i, b);
               u.places[i] == Returned(true) && u.active == w.active && u.channels == w.channels && u.db == w.db
  {
    assert w.db[rs[i].key := w.db[rs[i].key]] == w.db;
  }
}
