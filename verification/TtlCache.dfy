/** The cache with a time to live per entry, whose concurrent misses of a key share one load: its
    two locked operations, and the protocol of its callers as steps of threads. */
module TtlCaches {
  import opened Options

  datatype Entry<V> = Entry(value: V, expiresAt: int)

  /** The entry of a key, unless the clock has gone past it. */
  function LiveEntry<K, V>(entries: map<K, Entry<V>>, key: K, now: int): Option<Entry<V>> {
    if key !in entries || now > entries[key].expiresAt then None else Some(entries[key])
  }

  class TtlCache<K(==), V> {
    const ttl: int
    var entries: map<K, Entry<V>>

    constructor (ttl: int)
      ensures this.ttl == ttl && entries == map[]
    {
      this.ttl := ttl;
      entries := map[];
    }

    method Get(key: K, now: int) returns (found: Option<V>)
      ensures found == match LiveEntry(entries, key, now) case None => None case Some(e) => Some(e.value)
    {
      if key !in entries || now > entries[key].expiresAt {
        return None;
      }
      return Some(entries[key].value);
    }

    method Set(key: K, value: V, now: int)
      modifies this`entries
      ensures entries == old(entries)[key := Entry(value, now + ttl)]
    {
      entries := entries[key := Entry(value, now + ttl)];
    }

    /** A call of getOrLoad that, if it misses, leads its flight: by its second look other calls have
        left `meanwhile` as the entries. Its clock readings are `first`, `second` and `third`, and its
        load, if it gets that far, answers `loaded`. */
    method GetOrLoad(key: K, meanwhile: map<K, Entry<V>>, loaded: Option<V>, first: int, second: int, third: int)
      returns (result: Option<V>)
      modifies this`entries
      ensures var hit, found := LiveEntry(old(entries), key, first), LiveEntry(meanwhile, key, second);
              if hit.Some? then result == Some(hit.value.value) && entries == old(entries)
              else if found.Some? then result == Some(found.value.value) && entries == meanwhile
              else result == loaded
                   && entries == if loaded.None? then meanwhile else meanwhile[key := Entry(loaded.value, third + ttl)]
    {
      result := Get(key, first);
      if result.Some? {
        return;
      }
      entries := meanwhile;
      result := Get(key, second);
      if result.Some? {
        return;
      }
      result := loaded;
      if loaded.Some? {
        Set(key, loaded.value, third);
      }
    }
  }

  // ---------------------------------------------------------------- callers

  /** What a flight answers: the entry whose value is returned, or the error of the load. */
  datatype LoadOutcome<V> = Got(entry: Entry<V>) | LoadFailed

  /** Where a call is: it missed; it waits for a flight; it leads a flight and looks again, looked
      in vain, loads, has loaded, has its outcome. A call that missed notes the flight that already
      had a value in hand at that moment, and a waiting call whether it waits for that one. */
  datatype Stage<V> =
    | Missed(inHand: Option<nat>)
    | Waiting(late: bool)
    | Rechecking
    | Cleared
    | Loading
    | Loaded(value: V)
    | Finishing(outcome: LoadOutcome<V>)

  datatype Call<K, V> = Call(key: K, began: int, flight: nat, stage: Stage<V>)

  /** What is noted of the callers. An answer notes the flight it came from, unless it came from the
      first look. */
  datatype LogEntry<K, V> =
    | Started(key: K, flight: nat, at: int)
    | Ended(key: K, flight: nat, at: int, value: Option<V>)
    | Stored(key: K, flight: nat, at: int, entry: Entry<V>)
    | Returned(key: K, inFlight: Option<nat>, began: int, at: int, late: bool, outcome: LoadOutcome<V>)

  /** The clock, the entries, the registered flight of each key, the outcomes of the flights that
      are over, the calls under way by thread, and all that happened so far. */
  datatype State<K, V> = State(
    ttl: int,
    now: int,
    entries: map<K, Entry<V>>,
    flights: map<K, nat>,
    landed: map<nat, LoadOutcome<V>>,
    nextFlight: nat,
    calls: map<nat, Call<K, V>>,
    log: seq<LogEntry<K, V>>
  )

  datatype Step<K, V> =
    | Tick(to: int)
    | Hit(t: nat, key: K)
    | Miss(t: nat, key: K)
    | Lead(t: nat)
    | Join(t: nat)
    | RecheckHit(t: nat)
    | RecheckMiss(t: nat)
    | StartLoad(t: nat)
    | EndLoad(t: nat, value: Option<V>)
    | Store(t: nat)
    | Land(t: nat)
    | Wake(t: nat)

  predicate Leads<K, V>(c: Call<K, V>) {
    !c.stage.Missed? && !c.stage.Waiting?
  }

  predicate HasValue<K, V>(c: Call<K, V>) {
    c.stage.Finishing? && c.stage.outcome.Got?
  }

  /** The flight of the key that already has its value, if there is one. */
  ghost function InHand<K, V>(s: State<K, V>, key: K): Option<nat> {
    if key in s.flights
       && exists t :: t in s.calls && s.calls[t].key == key && Leads(s.calls[t]) && HasValue(s.calls[t])
    then Some(s.flights[key]) else None
  }

  ghost predicate Enabled<K, V>(s: State<K, V>, step: Step<K, V>) {
    match step
    case Tick(to) => s.now <= to
    case Hit(t, key) => t !in s.calls && LiveEntry(s.entries, key, s.now).Some?
    case Miss(t, key) => t !in s.calls && LiveEntry(s.entries, key, s.now).None?
    case Lead(t) => t in s.calls && s.calls[t].stage.Missed? && s.calls[t].key !in s.flights
    case Join(t) => t in s.calls && s.calls[t].stage.Missed? && s.calls[t].key in s.flights
    case RecheckHit(t) =>
      t in s.calls && s.calls[t].stage.Rechecking? && LiveEntry(s.entries, s.calls[t].key, s.now).Some?
    case RecheckMiss(t) =>
      t in s.calls && s.calls[t].stage.Rechecking? && LiveEntry(s.entries, s.calls[t].key, s.now).None?
    case StartLoad(t) => t in s.calls && s.calls[t].stage.Cleared?
    case EndLoad(t, _) => t in s.calls && s.calls[t].stage.Loading?
    case Store(t) => t in s.calls && s.calls[t].stage.Loaded?
    case Land(t) => t in s.calls && s.calls[t].stage.Finishing?
    case Wake(t) => t in s.calls && s.calls[t].stage.Waiting? && s.calls[t].flight in s.landed
  }

  ghost function Apply<K, V>(s: State<K, V>, step: Step<K, V>): State<K, V>
    requires Enabled(s, step)
  {
    match step
    case Tick(to) => s.(now := to)
    case Hit(t, key) => s.(log := s.log + [Returned(key, None, s.now, s.now, false, Got(s.entries[key]))])
    case Miss(t, key) => s.(calls := s.calls[t := Call(key, s.now, 0, Missed(InHand(s, key)))])
    case Lead(t) =>
      var c := s.calls[t];
      s.(flights := s.flights[c.key := s.nextFlight], nextFlight := s.nextFlight + 1,
         calls := s.calls[t := c.(flight := s.nextFlight, stage := Rechecking)])
    case Join(t) =>
      var c := s.calls[t];
      var flight := s.flights[c.key];
      s.(calls := s.calls[t := c.(flight := flight, stage := Waiting(c.stage.inHand == Some(flight)))])
    case RecheckHit(t) => To(s, t, Finishing(Got(s.entries[s.calls[t].key])))
    case RecheckMiss(t) => To(s, t, Cleared)
    case StartLoad(t) =>
      var c := s.calls[t];
      To(s, t, Loading).(log := s.log + [Started(c.key, c.flight, s.now)])
    case EndLoad(t, value) =>
      var c := s.calls[t];
      var stage := if value.None? then Finishing(LoadFailed) else Loaded(value.value);
      To(s, t, stage).(log := s.log + [Ended(c.key, c.flight, s.now, value)])
    case Store(t) =>
      var c := s.calls[t];
      var entry := Entry(c.stage.value, s.now + s.ttl);
      To(s, t, Finishing(Got(entry))).(entries := s.entries[c.key := entry],
                                      log := s.log + [Stored(c.key, c.flight, s.now, entry)])
    case Land(t) =>
      var c := s.calls[t];
      Return(s, t, false, c.stage.outcome).(flights := s.flights - {c.key},
                                            landed := s.landed[c.flight := c.stage.outcome])
    case Wake(t) => Return(s, t, s.calls[t].stage.late, s.landed[s.calls[t].flight])
  }

  function To<K, V>(s: State<K, V>, t: nat, stage: Stage<V>): State<K, V>
    requires t in s.calls
  {
    s.(calls := s.calls[t := s.calls[t].(stage := stage)])
  }

  function Return<K, V>(s: State<K, V>, t: nat, late: bool, outcome: LoadOutcome<V>): State<K, V>
    requires t in s.calls
  {
    var c := s.calls[t];
    s.(calls := s.calls - {t}, log := s.log + [Returned(c.key, Some(c.flight), c.began, s.now, late, outcome)])
  }

  ghost predicate Next<K(!new), V(!new)>(s: State<K, V>, s': State<K, V>) {
    exists step :: Enabled(s, step) && s' == Apply(s, step)
  }

  predicate Fresh<K, V>(s: State<K, V>) {
    s.entries == map[] && s.flights == map[] && s.landed == map[] && s.calls == map[] && s.log == []
  }

  // ---------------------------------------------------------------- what holds of the history

  /** Every load of a key starts strictly later than ttl after any earlier store of the key. */
  ghost predicate Spaced<K(!new), V(!new)>(ttl: int, log: seq<LogEntry<K, V>>) {
    forall i, j :: 0 <= i < j < |log| && log[i].Stored? && log[j].Started? && log[i].key == log[j].key ==>
      log[j].at > log[i].at + ttl
  }

  /** The load started at position i has ended before position n. */
  ghost predicate EndedBetween<K(!new), V(!new)>(log: seq<LogEntry<K, V>>, i: int, n: int)
    requires 0 <= i < n <= |log| && log[i].Started?
  {
    exists m :: i < m < n && log[m].Ended? && log[m].flight == log[i].flight && log[m].key == log[i].key
  }

  /** A load of a key starts only after the previous one has ended. */
  ghost predicate OneAtATime<K(!new), V(!new)>(log: seq<LogEntry<K, V>>) {
    forall i, j :: 0 <= i < j < |log| && log[i].Started? && log[j].Started? && log[i].key == log[j].key ==>
      EndedBetween(log, i, j)
  }

  /** What is stored for a key is what a load of that key answered in that flight. */
  ghost predicate StoredIsLoaded<K(!new), V(!new)>(ttl: int, log: seq<LogEntry<K, V>>) {
    forall j :: 0 <= j < |log| && log[j].Stored? ==>
      log[j].entry.expiresAt == log[j].at + ttl && LoadedFor(log, log[j].key, log[j].flight, log[j].entry.value)
  }

  ghost predicate LoadedFor<K(!new), V(!new)>(log: seq<LogEntry<K, V>>, key: K, flight: nat, value: V) {
    exists e :: e in log && e.Ended? && e.key == key && e.flight == flight && e.value == Some(value)
  }

  ghost predicate StoredFor<K(!new), V(!new)>(log: seq<LogEntry<K, V>>, key: K, entry: Entry<V>) {
    exists e :: e in log && e.Stored? && e.key == key && e.entry == entry
  }

  /** A returned value was stored for its key. It had expired when the call began exactly when the
      call joined a flight that already had it in hand. */
  ghost predicate ReturnedRight<K(!new), V(!new)>(log: seq<LogEntry<K, V>>) {
    forall e :: e in log && e.Returned? && e.outcome.Got? ==>
      StoredFor(log, e.key, e.outcome.entry) && (e.late <==> e.outcome.entry.expiresAt < e.began)
  }

  /** What the loads of a key have come to: none is open, one runs, or one has answered a value
      that is not stored yet; or they were out of order. */
  datatype Phase<V> =
    | Settled
    | UnderWay(flight: nat)
    | Unstored(flight: nat, value: V)
    | Disorder

  /** A load starts when none is open, ends in its flight, and a value it answered is stored by that
      flight before anything else happens to the key. */
  ghost function After<K, V>(p: Phase<V>, key: K, e: LogEntry<K, V>): Phase<V> {
    if e.key != key then p
    else
      match e
      case Started(_, flight, _) => if p == Settled then UnderWay(flight) else Disorder
      case Ended(_, flight, _, value) =>
        if p != UnderWay(flight) then Disorder
        else if value.None? then Settled
        else Unstored(flight, value.value)
      case Stored(_, flight, _, entry) => if p == Unstored(flight, entry.value) then Settled else Disorder
      case Returned(_, _, _, _, _, _) => p
  }

  ghost function PhaseOf<K, V>(log: seq<LogEntry<K, V>>, key: K): Phase<V> {
    if log == [] then Settled else After(PhaseOf(log[..|log| - 1], key), key, log[|log| - 1])
  }

  /** The load that ended with a value at position i has been stored before position n. */
  ghost predicate StoredBetween<K(!new), V(!new)>(log: seq<LogEntry<K, V>>, i: int, n: int)
    requires 0 <= i < n <= |log| && log[i].Ended? && log[i].value.Some?
  {
    exists m :: i < m < n && log[m].Stored? && log[m].key == log[i].key && log[m].flight == log[i].flight
      && log[m].entry.value == log[i].value.value
  }

  /** A value that was loaded is stored before the next load of its key starts. */
  ghost predicate StoredFirst<K(!new), V(!new)>(log: seq<LogEntry<K, V>>) {
    forall i, j ::
      0 <= i < j < |log| && log[i].Ended? && log[i].value.Some? && log[j].Started? && log[i].key == log[j].key
      ==> StoredBetween(log, i, j)
  }

  /** The history is in the order of the clock. */
  ghost predicate InTime<K(!new), V(!new)>(log: seq<LogEntry<K, V>>) {
    forall i, j :: 0 <= i < j < |log| ==> log[i].at <= log[j].at
  }

  /** From the end of a load that answered a value, the next load of the key is more than ttl away. */
  ghost predicate LoadsSpaced<K(!new), V(!new)>(ttl: int, log: seq<LogEntry<K, V>>) {
    forall i, j ::
      0 <= i < j < |log| && log[i].Ended? && log[i].value.Some? && log[j].Started? && log[i].key == log[j].key
      ==> log[j].at > log[i].at + ttl
  }

  /** The load of the flight failed before position n. */
  ghost predicate FailedBefore<K(!new), V(!new)>(log: seq<LogEntry<K, V>>, key: K, flight: nat, n: int)
    requires 0 <= n <= |log|
  {
    exists m :: 0 <= m < n && log[m].Ended? && log[m].key == key && log[m].flight == flight && log[m].value.None?
  }

  /** An error is only answered when the load of the flight the call led or waited for has failed. */
  ghost predicate ErrorsRight<K(!new), V(!new)>(log: seq<LogEntry<K, V>>) {
    forall i :: 0 <= i < |log| && log[i].Returned? && log[i].outcome.LoadFailed? ==>
      log[i].inFlight.Some? && FailedBefore(log, log[i].key, log[i].inFlight.value, i)
  }

  /** The outcome is the entry the flight has stored, and the error if its load failed. */
  ghost predicate FlightFits<K(!new), V(!new)>(log: seq<LogEntry<K, V>>, flight: nat, outcome: LoadOutcome<V>) {
    && (forall e :: e in log && e.Stored? && e.flight == flight ==> outcome == Got(e.entry))
    && (forall e :: e in log && e.Ended? && e.flight == flight && e.value.None? ==> outcome.LoadFailed?)
  }

  /** All calls of a flight get one answer: the entry it stored if it stored one, and the error if its
      load failed. */
  ghost predicate FlightsAgree<K(!new), V(!new)>(log: seq<LogEntry<K, V>>) {
    forall r :: r in log && r.Returned? && r.inFlight.Some? ==>
      && FlightFits(log, r.inFlight.value, r.outcome)
      && forall e :: e in log && e.Returned? && e.inFlight == r.inFlight ==> e.outcome == r.outcome
  }

  // ---------------------------------------------------------------- invariant

  ghost predicate FlightsOk<K(!new), V(!new)>(s: State<K, V>) {
    && (forall k :: k in s.flights ==> s.flights[k] < s.nextFlight && s.flights[k] !in s.landed)
    && (forall k, l :: k in s.flights && l in s.flights && s.flights[k] == s.flights[l] ==> k == l)
    && (forall f :: f in s.landed ==> f < s.nextFlight)
  }

  /** A leading call leads the registered flight of its key, alone. */
  ghost predicate LeadersOk<K(!new), V(!new)>(s: State<K, V>) {
    && (forall t :: t in s.calls && Leads(s.calls[t]) ==>
          s.calls[t].key in s.flights && s.flights[s.calls[t].key] == s.calls[t].flight)
    && (forall t, u ::
          t in s.calls && u in s.calls && Leads(s.calls[t]) && Leads(s.calls[u]) && s.calls[t].key == s.calls[u].key
          ==> t == u)
  }

  ghost predicate Led<K, V>(s: State<K, V>, key: K) {
    exists t :: t in s.calls && Leads(s.calls[t]) && s.calls[t].key == key
  }

  /** Every registered flight has a leader, and a waiting call's flight has landed or is
      registered: nobody waits in vain. */
  ghost predicate WaitersOk<K(!new), V(!new)>(s: State<K, V>) {
    && (forall k :: k in s.flights ==> Led(s, k))
    && (forall t :: t in s.calls && s.calls[t].stage.Waiting? ==> Awaited(s, s.calls[t]))
  }

  ghost predicate Awaited<K, V>(s: State<K, V>, c: Call<K, V>) {
    c.flight in s.landed || (c.key in s.flights && s.flights[c.key] == c.flight)
  }

  /** The entry of a key is the last one stored for it. */
  ghost predicate EntriesOk<K(!new), V(!new)>(s: State<K, V>) {
    && (forall k :: k in s.entries ==> StoredFor(s.log, k, s.entries[k]))
    && (forall e :: e in s.log && e.Stored? ==>
          e.at <= s.now && e.entry.expiresAt == e.at + s.ttl
          && e.key in s.entries && e.entry.expiresAt <= s.entries[e.key].expiresAt)
  }

  ghost predicate StagesOk<K(!new), V(!new)>(s: State<K, V>) {
    forall t :: t in s.calls ==> StageOk(s, s.calls[t])
  }

  ghost predicate StageOk<K(!new), V(!new)>(s: State<K, V>, c: Call<K, V>) {
    && c.began <= s.now
    && match c.stage
       case Missed(f) => f.Some? ==> f.value < s.nextFlight
       case Waiting(late) =>
         c.flight in s.landed && s.landed[c.flight].Got? ==>
           StoredFor(s.log, c.key, s.landed[c.flight].entry) && (late <==> s.landed[c.flight].entry.expiresAt < c.began)
       case Cleared => LiveEntry(s.entries, c.key, s.now).None?
       case Loaded(value) => LoadedFor(s.log, c.key, c.flight, value)
       case Finishing(Got(entry)) => c.key in s.entries && s.entries[c.key] == entry && c.began <= entry.expiresAt
       case _ => true
  }

  /** A call that joins this leader's flight, or may join it, counts as late exactly when the
      leader has a value that had expired when the call began. */
  ghost predicate LateOk<K, V>(c: Call<K, V>, leader: Call<K, V>) {
    && (c.stage.Missed? && c.key == leader.key ==>
          (c.stage.inHand == Some(leader.flight) <==>
           HasValue(leader) && leader.stage.outcome.entry.expiresAt < c.began))
    && (c.stage.Waiting? && c.flight == leader.flight ==>
          (c.stage.late <==> HasValue(leader) && leader.stage.outcome.entry.expiresAt < c.began))
  }

  ghost predicate LatesOk<K(!new), V(!new)>(s: State<K, V>) {
    forall t, u :: t in s.calls && u in s.calls && Leads(s.calls[u]) ==> LateOk(s.calls[t], s.calls[u])
  }

  ghost predicate ErrorFor<K(!new), V(!new)>(s: State<K, V>, c: Call<K, V>) {
    FailedBefore(s.log, c.key, c.flight, |s.log|)
  }

  /** A call that will answer an error leads or waits for a flight whose load failed. */
  ghost predicate ErrorsOk<K(!new), V(!new)>(s: State<K, V>) {
    forall t :: t in s.calls ==> ErrorOk(s, s.calls[t])
  }

  ghost predicate ErrorOk<K(!new), V(!new)>(s: State<K, V>, c: Call<K, V>) {
    && (c.stage == Finishing(LoadFailed) ==> ErrorFor(s, c))
    && (c.stage.Waiting? && c.flight in s.landed && s.landed[c.flight].LoadFailed? ==> ErrorFor(s, c))
  }

  /** What the history says of the flight fits the stage of its leader. */
  ghost predicate LeaderFits<K(!new), V(!new)>(log: seq<LogEntry<K, V>>, c: Call<K, V>) {
    match c.stage
    case Rechecking | Cleared | Loading =>
      forall e :: e in log && (e.Stored? || e.Ended?) ==> e.flight != c.flight
    case Loaded(_) =>
      forall e :: e in log && (e.Stored? || (e.Ended? && e.value.None?)) ==> e.flight != c.flight
    case Finishing(outcome) => FlightFits(log, c.flight, outcome)
    case _ => true
  }

  /** Landed flights and the answers of their calls fit the history, and so do the leaders. */
  ghost predicate OutcomesOk<K(!new), V(!new)>(s: State<K, V>) {
    && (forall e :: e in s.log && !e.Returned? ==> e.flight < s.nextFlight)
    && (forall e :: e in s.log && e.Returned? && e.inFlight.Some? ==>
          e.inFlight.value in s.landed && s.landed[e.inFlight.value] == e.outcome)
    && (forall f :: f in s.landed ==> FlightFits(s.log, f, s.landed[f]))
    && (forall t :: t in s.calls && Leads(s.calls[t]) ==> LeaderFits(s.log, s.calls[t]))
  }

  ghost predicate LoadingBy<K, V>(s: State<K, V>, key: K, flight: nat) {
    exists t :: t in s.calls && s.calls[t].stage.Loading? && s.calls[t].key == key && s.calls[t].flight == flight
  }

  /** Every load that was started has ended or is under way. */
  ghost predicate LoadsOk<K(!new), V(!new)>(s: State<K, V>) {
    forall i :: 0 <= i < |s.log| && s.log[i].Started? ==>
      EndedBetween(s.log, i, |s.log|) || LoadingBy(s, s.log[i].key, s.log[i].flight)
  }

  ghost predicate HeldBy<K, V>(s: State<K, V>, key: K, flight: nat, value: V) {
    exists t ::
      t in s.calls && s.calls[t].stage == Loaded(value) && s.calls[t].key == key && s.calls[t].flight == flight
  }

  /** The call loads, or has loaded and not yet stored. */
  predicate Loads<K, V>(c: Call<K, V>) {
    c.stage.Loading? || c.stage.Loaded?
  }

  /** The phase of a key is that of the call that leads its flight. */
  ghost predicate PhaseFits<K(!new), V(!new)>(s: State<K, V>, key: K, phase: Phase<V>) {
    match phase
    case Settled => forall t :: t in s.calls && s.calls[t].key == key ==> !Loads(s.calls[t])
    case UnderWay(flight) => LoadingBy(s, key, flight)
    case Unstored(flight, value) => HeldBy(s, key, flight, value)
    case Disorder => false
  }

  ghost predicate PhasesOk<K(!new), V(!new)>(s: State<K, V>) {
    forall key :: PhaseFits(s, key, PhaseOf(s.log, key))
  }

  ghost predicate ClockOk<K(!new), V(!new)>(s: State<K, V>) {
    InTime(s.log) && forall i :: 0 <= i < |s.log| ==> s.log[i].at <= s.now
  }

  ghost predicate History<K(!new), V(!new)>(s: State<K, V>) {
    && Spaced(s.ttl, s.log) && OneAtATime(s.log) && StoredFirst(s.log) && StoredIsLoaded(s.ttl, s.log)
    && ReturnedRight(s.log) && ErrorsRight(s.log) && FlightsAgree(s.log)
  }

  ghost predicate Inv<K(!new), V(!new)>(s: State<K, V>) {
    && s.ttl >= 0
    && FlightsOk(s) && LeadersOk(s) && WaitersOk(s) && EntriesOk(s) && StagesOk(s) && LatesOk(s) && LoadsOk(s)
    && PhasesOk(s) && ClockOk(s) && ErrorsOk(s) && OutcomesOk(s) && History(s)
  }

  // ---------------------------------------------------------------- every step keeps it

  lemma LogGrows<K(!new), V(!new)>(s: State<K, V>, step: Step<K, V>)
    requires Enabled(s, step)
    ensures s.log <= Apply(s, step).log && |Apply(s, step).log| <= |s.log| + 1
    ensures Apply(s, step).ttl == s.ttl && Apply(s, step).now >= s.now
    ensures Apply(s, step).nextFlight >= s.nextFlight
  {
  }

  lemma FlightsKept<K(!new), V(!new)>(s: State<K, V>, step: Step<K, V>)
    requires FlightsOk(s) && LeadersOk(s) && Enabled(s, step)
    ensures FlightsOk(Apply(s, step))
  {
    hide InHand, LiveEntry;
  }

  lemma LeadersKept<K(!new), V(!new)>(s: State<K, V>, step: Step<K, V>)
    requires LeadersOk(s) && Enabled(s, step)
    ensures LeadersOk(Apply(s, step))
  {
    hide InHand, LiveEntry;
  }

  lemma LedKept<K(!new), V(!new)>(s: State<K, V>, step: Step<K, V>, key: K)
    requires LeadersOk(s) && Enabled(s, step) && (key in s.flights ==> Led(s, key))
    requires key in Apply(s, step).flights
    ensures Led(Apply(s, step), key)
  {
    hide InHand, LiveEntry;
    var s' := Apply(s, step);
    if step.Lead? && s.calls[step.t].key == key {
      assert s'.calls[step.t].key == key && Leads(s'.calls[step.t]);
    } else {
      var t :| t in s.calls && Leads(s.calls[t]) && s.calls[t].key == key;
      assert t in s'.calls && s'.calls[t].key == key && Leads(s'.calls[t]);
    }
  }

  lemma WaitersKept<K(!new), V(!new)>(s: State<K, V>, step: Step<K, V>)
    requires LeadersOk(s) && WaitersOk(s) && Enabled(s, step)
    ensures WaitersOk(Apply(s, step))
  {
    WaitingKept(s, step);
    var s' := Apply(s, step);
    forall k | k in s'.flights
      ensures Led(s', k)
    {
      LedKept(s, step, k);
    }
  }

  lemma WaitingKept<K(!new), V(!new)>(s: State<K, V>, step: Step<K, V>)
    requires LeadersOk(s) && WaitersOk(s) && Enabled(s, step)
    ensures var s' := Apply(s, step);
            forall t :: t in s'.calls && s'.calls[t].stage.Waiting? ==> Awaited(s', s'.calls[t])
  {
    hide InHand, LiveEntry, Led;
  }

  lemma StoredForGrows<K(!new), V(!new)>(s: State<K, V>, step: Step<K, V>, key: K, entry: Entry<V>)
    requires Enabled(s, step) && StoredFor(s.log, key, entry)
    ensures StoredFor(Apply(s, step).log, key, entry)
  {
    LogGrows(s, step);
    var e :| e in s.log && e.Stored? && e.key == key && e.entry == entry;
    assert e in Apply(s, step).log;
  }

  lemma LoadedForGrows<K(!new), V(!new)>(s: State<K, V>, step: Step<K, V>, key: K, flight: nat, value: V)
    requires Enabled(s, step) && LoadedFor(s.log, key, flight, value)
    ensures LoadedFor(Apply(s, step).log, key, flight, value)
  {
    LogGrows(s, step);
    var e :| e in s.log && e.Ended? && e.key == key && e.flight == flight && e.value == Some(value);
    assert e in Apply(s, step).log;
  }

  lemma EntriesKept<K(!new), V(!new)>(s: State<K, V>, step: Step<K, V>)
    requires EntriesOk(s) && Enabled(s, step)
    ensures EntriesOk(Apply(s, step))
  {
    hide InHand, LiveEntry, Leads;
    var s' := Apply(s, step);
    forall k | k in s'.entries
      ensures StoredFor(s'.log, k, s'.entries[k])
    {
      if step.Store? && s.calls[step.t].key == k {
        assert s'.log[|s.log|] in s'.log;
      } else {
        StoredForGrows(s, step, k, s.entries[k]);
      }
    }
    hide StoredFor;
  }

  /** The thread that takes the step. */
  predicate Takes<K, V>(step: Step<K, V>, t: nat) {
    !step.Tick? && !step.Hit? && step.t == t
  }

  lemma OthersStay<K(!new), V(!new)>(s: State<K, V>, step: Step<K, V>, t: nat)
    requires Enabled(s, step) && !Takes(step, t)
    ensures t in Apply(s, step).calls <==> t in s.calls
    ensures t in s.calls ==> Apply(s, step).calls[t] == s.calls[t]
  {
    hide InHand, LiveEntry;
  }

  /** The entry of a leader's key only changes by its own steps. */
  lemma EntryStays<K(!new), V(!new)>(s: State<K, V>, step: Step<K, V>, t: nat)
    requires LeadersOk(s) && Enabled(s, step) && t in s.calls && Leads(s.calls[t]) && !Takes(step, t)
    ensures var key := s.calls[t].key;
            && (key in Apply(s, step).entries <==> key in s.entries)
            && (key in s.entries ==> Apply(s, step).entries[key] == s.entries[key])
  {
    hide InHand, LiveEntry;
  }

  /** A flight lands once, with the outcome of its leader. */
  lemma LandedStays<K(!new), V(!new)>(s: State<K, V>, step: Step<K, V>, flight: nat)
    requires FlightsOk(s) && LeadersOk(s) && Enabled(s, step)
    ensures var s' := Apply(s, step);
            && (flight in s.landed ==> flight in s'.landed && s'.landed[flight] == s.landed[flight])
            && (flight in s'.landed && flight !in s.landed ==>
                  && step.Land? && step.t in s.calls && Leads(s.calls[step.t]) && s.calls[step.t].stage.Finishing?
                  && s.calls[step.t].flight == flight && s'.landed[flight] == s.calls[step.t].stage.outcome)
  {
    hide InHand, LiveEntry;
  }

  lemma WaitingStays<K(!new), V(!new)>(s: State<K, V>, step: Step<K, V>, c: Call<K, V>)
    requires FlightsOk(s) && LeadersOk(s) && EntriesOk(s) && StagesOk(s) && Enabled(s, step)
    requires c.stage.Waiting? && Awaited(s, c) && StageOk(s, c)
    requires forall u :: u in s.calls && Leads(s.calls[u]) ==> LateOk(c, s.calls[u])
    ensures StageOk(Apply(s, step), c)
  {
    LogGrows(s, step);
    LandedStays(s, step, c.flight);
    var s' := Apply(s, step);
    hide Enabled, Apply, StoredFor, LoadedFor, LiveEntry;
    if c.flight in s.landed && s.landed[c.flight].Got? {
      StoredForGrows(s, step, c.key, s.landed[c.flight].entry);
    } else if c.flight !in s.landed && c.flight in s'.landed && s'.landed[c.flight].Got? {
      var leader := s.calls[step.t];
      assert StageOk(s, leader) && LateOk(c, leader);
      assert leader.key == c.key;
      StoredForGrows(s, step, c.key, leader.stage.outcome.entry);
    }
  }

  lemma StageOfOther<K(!new), V(!new)>(s: State<K, V>, step: Step<K, V>, t: nat)
    requires FlightsOk(s) && LeadersOk(s) && WaitersOk(s) && EntriesOk(s) && StagesOk(s) && LatesOk(s)
    requires Enabled(s, step) && t in s.calls && !Takes(step, t)
    ensures StageOk(Apply(s, step), s.calls[t])
  {
    var c := s.calls[t];
    assert StageOk(s, c);
    if c.stage.Waiting? {
      hide StageOk, StagesOk, EntriesOk, FlightsOk, LeadersOk, Enabled, Apply, LateOk, Awaited;
      WaitingStays(s, step, c);
    } else {
      hide Enabled, Apply, StageOk, StagesOk, EntriesOk, FlightsOk, LeadersOk, WaitersOk, LatesOk, LoadedFor;
      LogGrows(s, step);
      if Leads(c) {
        EntryStays(s, step, t);
      }
      if c.stage.Loaded? && LoadedFor(s.log, c.key, c.flight, c.stage.value) {
        LoadedForGrows(s, step, c.key, c.flight, c.stage.value);
      }
      SameStage(s, Apply(s, step), c);
    }
  }

  /** What a call relies on stays when the clock goes on, the entry of its key is the same, and the
      history only grows. */
  lemma SameStage<K(!new), V(!new)>(s: State<K, V>, s': State<K, V>, c: Call<K, V>)
    requires StageOk(s, c) && !c.stage.Waiting? && s'.now >= s.now && s'.nextFlight >= s.nextFlight
    requires Leads(c) ==>
               && (c.key in s'.entries <==> c.key in s.entries)
               && (c.key in s.entries ==> s'.entries[c.key] == s.entries[c.key])
    requires c.stage.Loaded? && LoadedFor(s.log, c.key, c.flight, c.stage.value) ==>
               LoadedFor(s'.log, c.key, c.flight, c.stage.value)
    ensures StageOk(s', c)
  {
    hide LoadedFor, StoredFor;
  }

  lemma StageOfTaker<K(!new), V(!new)>(s: State<K, V>, step: Step<K, V>, t: nat)
    requires Enabled(s, step) && Takes(step, t) && s.ttl >= 0
    requires FlightsOk(s) && StagesOk(s)
    requires t in Apply(s, step).calls
    ensures StageOk(Apply(s, step), Apply(s, step).calls[t])
  {
    hide StoredFor;
    var s' := Apply(s, step);
    assert t in s.calls ==> StageOk(s, s.calls[t]);
    if step.EndLoad? && step.value.Some? {
      assert s'.log[|s.log|] in s'.log;
    }
  }

  lemma StagesKept<K(!new), V(!new)>(s: State<K, V>, step: Step<K, V>)
    requires s.ttl >= 0 && FlightsOk(s) && LeadersOk(s) && WaitersOk(s) && EntriesOk(s) && StagesOk(s) && LatesOk(s)
    requires Enabled(s, step)
    ensures StagesOk(Apply(s, step))
  {
    hide Enabled, Apply, FlightsOk, LeadersOk, WaitersOk, EntriesOk, LateOk, StageOk, Leads, HasValue;
    forall t | t in Apply(s, step).calls
      ensures StageOk(Apply(s, step), Apply(s, step).calls[t])
    {
      if Takes(step, t) {
        StageOfTaker(s, step, t);
      } else {
        OthersStay(s, step, t);
        StageOfOther(s, step, t);
      }
    }
  }

  /** The calls of one thread under the leadership of another, after a step of the first. */
  lemma LateOfTaker<K(!new), V(!new)>(s: State<K, V>, step: Step<K, V>, t: nat, u: nat)
    requires FlightsOk(s) && LeadersOk(s) && WaitersOk(s) && StagesOk(s) && LatesOk(s) && Enabled(s, step)
    requires Takes(step, t) && t in Apply(s, step).calls && t != u && u in s.calls && Leads(s.calls[u])
    ensures LateOk(Apply(s, step).calls[t], s.calls[u])
  {
    if step.Miss? {
      LateAtMiss(s, step, t, u);
    } else if step.Join? {
      LateAtJoin(s, step, t, u);
    } else {
      LeadsOn(s, step, t);
      NotLate(Apply(s, step).calls[t], s.calls[u]);
    }
  }

  lemma LeadsOn<K(!new), V(!new)>(s: State<K, V>, step: Step<K, V>, t: nat)
    requires Enabled(s, step) && Takes(step, t) && t in Apply(s, step).calls && !step.Miss? && !step.Join?
    ensures Leads(Apply(s, step).calls[t])
  {
    hide InHand, LiveEntry;
  }

  lemma NotLate<K, V>(c: Call<K, V>, leader: Call<K, V>)
    requires Leads(c)
    ensures LateOk(c, leader)
  {
  }

  /** A call that misses notes the flight of the leader that has a value in hand, if any: it is the
      only leader of the key, and its value has expired. */
  lemma LateAtMiss<K(!new), V(!new)>(s: State<K, V>, step: Step<K, V>, t: nat, u: nat)
    requires LeadersOk(s) && StagesOk(s) && Enabled(s, step) && step.Miss? && step.t == t
    requires u in s.calls && Leads(s.calls[u])
    ensures LateOk(Apply(s, step).calls[t], s.calls[u])
  {
    assert StageOk(s, s.calls[u]);
    hide StoredFor, LoadedFor, StagesOk;
  }

  lemma LateAtJoin<K(!new), V(!new)>(s: State<K, V>, step: Step<K, V>, t: nat, u: nat)
    requires FlightsOk(s) && LeadersOk(s) && LatesOk(s) && Enabled(s, step) && step.Join? && step.t == t
    requires u in s.calls && Leads(s.calls[u])
    ensures LateOk(Apply(s, step).calls[t], s.calls[u])
  {
    hide InHand, LiveEntry;
    assert LateOk(s.calls[t], s.calls[u]);
    hide LatesOk;
  }

  /** The calls of one thread under the leadership of another, after a step of the second. */
  lemma LateOfLeader<K(!new), V(!new)>(s: State<K, V>, step: Step<K, V>, t: nat, u: nat)
    requires s.ttl >= 0 && FlightsOk(s) && WaitersOk(s) && StagesOk(s) && LatesOk(s) && Enabled(s, step)
    requires Takes(step, u) && t in s.calls && t != u && u in Apply(s, step).calls && Leads(Apply(s, step).calls[u])
    ensures LateOk(s.calls[t], Apply(s, step).calls[u])
  {
    hide StoredFor, LoadedFor, InHand;
    assert StageOk(s, s.calls[t]);
    assert u in s.calls ==> StageOk(s, s.calls[u]);
    assert u in s.calls && Leads(s.calls[u]) ==> LateOk(s.calls[t], s.calls[u]);
  }

  lemma LatesKept<K(!new), V(!new)>(s: State<K, V>, step: Step<K, V>)
    requires s.ttl >= 0 && FlightsOk(s) && LeadersOk(s) && WaitersOk(s) && StagesOk(s) && LatesOk(s) && Enabled(s, step)
    ensures LatesOk(Apply(s, step))
  {
    hide Enabled, Apply, FlightsOk, LeadersOk, WaitersOk, StagesOk, StageOk, LateOk, Leads;
    var s' := Apply(s, step);
    forall t, u | t in s'.calls && u in s'.calls && Leads(s'.calls[u])
      ensures LateOk(s'.calls[t], s'.calls[u])
    {
      if t == u {
        NotUnderItself(s'.calls[t]);
      } else if Takes(step, t) {
        OthersStay(s, step, u);
        LateOfTaker(s, step, t, u);
      } else if Takes(step, u) {
        OthersStay(s, step, t);
        LateOfLeader(s, step, t, u);
      } else {
        OthersStay(s, step, t);
        OthersStay(s, step, u);
      }
    }
  }

  lemma NotUnderItself<K, V>(c: Call<K, V>)
    ensures Leads(c) ==> LateOk(c, c)
  {
  }

  lemma LoadsKept<K(!new), V(!new)>(s: State<K, V>, step: Step<K, V>)
    requires LoadsOk(s) && Enabled(s, step)
    ensures LoadsOk(Apply(s, step))
  {
    hide InHand, LiveEntry;
    var s' := Apply(s, step);
    LogGrows(s, step);
    forall i | 0 <= i < |s'.log| && s'.log[i].Started?
      ensures EndedBetween(s'.log, i, |s'.log|) || LoadingBy(s', s'.log[i].key, s'.log[i].flight)
    {
      if i == |s.log| {
        assert s'.calls[step.t].stage.Loading?;
      } else if EndedBetween(s.log, i, |s.log|) {
        var m :| i < m < |s.log| && s.log[m].Ended?
          && s.log[m].flight == s.log[i].flight && s.log[m].key == s.log[i].key;
        assert s'.log[m] == s.log[m];
      } else {
        var t :| t in s.calls && s.calls[t].stage.Loading? && s.calls[t].key == s.log[i].key
          && s.calls[t].flight == s.log[i].flight;
        if step.EndLoad? && step.t == t {
          assert s'.log[|s.log|].Ended?;
        } else {
          assert t in s'.calls && s'.calls[t] == s.calls[t];
        }
      }
    }
  }

  lemma ClockKept<K(!new), V(!new)>(s: State<K, V>, step: Step<K, V>)
    requires ClockOk(s) && Enabled(s, step)
    ensures ClockOk(Apply(s, step))
  {
    hide InHand, LiveEntry;
    LogGrows(s, step);
  }

  /** The step is one of the load of the key. */
  ghost predicate StepsLoad<K, V>(s: State<K, V>, step: Step<K, V>, key: K) {
    (step.StartLoad? || step.EndLoad? || step.Store?) && step.t in s.calls && s.calls[step.t].key == key
  }

  /** A step that is none of the load of the key writes nothing about it. */
  lemma SamePhase<K(!new), V(!new)>(s: State<K, V>, step: Step<K, V>, key: K)
    requires Enabled(s, step) && !StepsLoad(s, step, key)
    ensures PhaseOf(Apply(s, step).log, key) == PhaseOf(s.log, key)
  {
    hide InHand, LiveEntry;
    var log' := Apply(s, step).log;
    assert log' != s.log ==> log'[..|log'| - 1] == s.log && After(PhaseOf(s.log, key), key, log'[|log'| - 1])
                                                            == PhaseOf(s.log, key);
  }

  /** Nor does it change the calls that load for the key. */
  lemma LoadersStay<K(!new), V(!new)>(s: State<K, V>, step: Step<K, V>, key: K, t: nat)
    requires Enabled(s, step) && !StepsLoad(s, step, key)
    ensures t in s.calls && Loads(s.calls[t]) && s.calls[t].key == key ==>
              t in Apply(s, step).calls && Apply(s, step).calls[t] == s.calls[t]
    ensures t in Apply(s, step).calls && Loads(Apply(s, step).calls[t]) && Apply(s, step).calls[t].key == key ==>
              t in s.calls && Apply(s, step).calls[t] == s.calls[t]
  {
    hide InHand, LiveEntry;
  }

  lemma PhaseStays<K(!new), V(!new)>(s: State<K, V>, step: Step<K, V>, key: K)
    requires Enabled(s, step) && !StepsLoad(s, step, key) && PhaseFits(s, key, PhaseOf(s.log, key))
    ensures PhaseFits(Apply(s, step), key, PhaseOf(Apply(s, step).log, key))
  {
    hide Enabled, Apply, PhaseOf, StepsLoad;
    SamePhase(s, step, key);
    var s' := Apply(s, step);
    forall t: nat
      ensures t in s.calls && Loads(s.calls[t]) && s.calls[t].key == key ==> t in s'.calls && s'.calls[t] == s.calls[t]
      ensures t in s'.calls && Loads(s'.calls[t]) && s'.calls[t].key == key ==>
                t in s.calls && s'.calls[t] == s.calls[t]
    {
      LoadersStay(s, step, key, t);
    }
  }

  /** A step of the load itself takes its key to the next phase. */
  lemma StartMoves<K(!new), V(!new)>(s: State<K, V>, step: Step<K, V>, key: K)
    requires LeadersOk(s) && Enabled(s, step) && step.StartLoad? && s.calls[step.t].key == key
    requires PhaseFits(s, key, PhaseOf(s.log, key))
    ensures PhaseFits(Apply(s, step), key, PhaseOf(Apply(s, step).log, key))
  {
    hide InHand, LiveEntry;
    var s' := Apply(s, step);
    assert s'.log[..|s'.log| - 1] == s.log;
    assert s'.calls[step.t].key == key && s'.calls[step.t].flight == s.calls[step.t].flight;
  }

  lemma EndMoves<K(!new), V(!new)>(s: State<K, V>, step: Step<K, V>, key: K)
    requires LeadersOk(s) && Enabled(s, step) && step.EndLoad? && s.calls[step.t].key == key
    requires PhaseFits(s, key, PhaseOf(s.log, key))
    ensures PhaseFits(Apply(s, step), key, PhaseOf(Apply(s, step).log, key))
  {
    hide InHand, LiveEntry;
    var s' := Apply(s, step);
    assert s'.log[..|s'.log| - 1] == s.log;
    assert s'.calls[step.t].key == key && s'.calls[step.t].flight == s.calls[step.t].flight;
  }

  lemma StoreMoves<K(!new), V(!new)>(s: State<K, V>, step: Step<K, V>, key: K)
    requires LeadersOk(s) && Enabled(s, step) && step.Store? && s.calls[step.t].key == key
    requires PhaseFits(s, key, PhaseOf(s.log, key))
    ensures PhaseFits(Apply(s, step), key, PhaseOf(Apply(s, step).log, key))
  {
    hide InHand, LiveEntry;
    var s' := Apply(s, step);
    assert s'.log[..|s'.log| - 1] == s.log;
  }

  lemma PhaseMoves<K(!new), V(!new)>(s: State<K, V>, step: Step<K, V>, key: K)
    requires LeadersOk(s) && Enabled(s, step) && StepsLoad(s, step, key) && PhaseFits(s, key, PhaseOf(s.log, key))
    ensures PhaseFits(Apply(s, step), key, PhaseOf(Apply(s, step).log, key))
  {
    hide Enabled, Apply, LeadersOk, PhaseFits, PhaseOf;
    match step
    case StartLoad(_) => StartMoves(s, step, key);
    case EndLoad(_, _) => EndMoves(s, step, key);
    case Store(_) => StoreMoves(s, step, key);
  }

  lemma PhasesKept<K(!new), V(!new)>(s: State<K, V>, step: Step<K, V>)
    requires LeadersOk(s) && PhasesOk(s) && Enabled(s, step)
    ensures PhasesOk(Apply(s, step))
  {
    hide Enabled, Apply, LeadersOk, PhaseFits, PhaseOf;
    forall key
      ensures PhaseFits(Apply(s, step), key, PhaseOf(Apply(s, step).log, key))
    {
      if StepsLoad(s, step, key) {
        PhaseMoves(s, step, key);
      } else {
        PhaseStays(s, step, key);
      }
    }
  }

  lemma {:induction false} PrefixInOrder<K, V>(log: seq<LogEntry<K, V>>, key: K, n: nat)
    requires n <= |log| && PhaseOf(log, key) != Disorder
    ensures PhaseOf(log[..n], key) != Disorder
    decreases |log|
  {
    if n < |log| {
      PrefixInOrder(log[..|log| - 1], key, n);
      assert log[..|log| - 1][..n] == log[..n];
    } else {
      assert log[..n] == log;
    }
  }

  /** A value that was loaded is held until it is stored. */
  lemma {:induction false} HeldUntilStored<K(!new), V(!new)>(log: seq<LogEntry<K, V>>, i: nat, n: nat)
    requires i < n <= |log| && log[i].Ended? && log[i].value.Some? && PhaseOf(log, log[i].key) != Disorder
    ensures StoredBetween(log, i, n) || PhaseOf(log[..n], log[i].key) == Unstored(log[i].flight, log[i].value.value)
    decreases n
  {
    var key := log[i].key;
    PrefixInOrder(log, key, n);
    assert log[..n][..n - 1] == log[..n - 1] && log[..n][n - 1] == log[n - 1];
    if n > i + 1 {
      HeldUntilStored(log, i, n - 1);
    }
  }

  lemma InOrderStoredFirst<K(!new), V(!new)>(log: seq<LogEntry<K, V>>)
    requires forall key :: PhaseOf(log, key) != Disorder
    ensures StoredFirst(log)
  {
    hide StoredBetween;
    forall i, j |
      0 <= i < j < |log| && log[i].Ended? && log[i].value.Some? && log[j].Started? && log[i].key == log[j].key
      ensures StoredBetween(log, i, j)
    {
      HeldUntilStored(log, i, j);
      PrefixInOrder(log, log[i].key, j + 1);
      assert log[..j + 1][..j] == log[..j] && log[..j + 1][j] == log[j];
    }
  }

  lemma StoredFirstKept<K(!new), V(!new)>(s: State<K, V>, step: Step<K, V>)
    requires LeadersOk(s) && PhasesOk(s) && Enabled(s, step)
    ensures StoredFirst(Apply(s, step).log)
  {
    hide Enabled, Apply, LeadersOk, StoredFirst, PhaseOf, LoadingBy, HeldBy;
    PhasesKept(s, step);
    var s' := Apply(s, step);
    forall key
      ensures PhaseOf(s'.log, key) != Disorder
    {
      assert PhaseFits(s', key, PhaseOf(s'.log, key));
    }
    InOrderStoredFirst(s'.log);
  }

  lemma SpacedKept<K(!new), V(!new)>(s: State<K, V>, step: Step<K, V>)
    requires EntriesOk(s) && StagesOk(s) && Spaced(s.ttl, s.log) && Enabled(s, step)
    ensures Spaced(s.ttl, Apply(s, step).log)
  {
    hide InHand, StoredFor, LoadedFor;
    LogGrows(s, step);
    if step.StartLoad? {
      assert StageOk(s, s.calls[step.t]);
      assert forall i :: 0 <= i < |s.log| ==> s.log[i] in s.log;
    }
  }

  lemma OneAtATimeKept<K(!new), V(!new)>(s: State<K, V>, step: Step<K, V>)
    requires LeadersOk(s) && LoadsOk(s) && OneAtATime(s.log) && Enabled(s, step)
    ensures OneAtATime(Apply(s, step).log)
  {
    hide InHand, LiveEntry;
    LogGrows(s, step);
    var log, log' := s.log, Apply(s, step).log;
    forall i, j | 0 <= i < j < |log'| && log'[i].Started? && log'[j].Started? && log'[i].key == log'[j].key
      ensures EndedBetween(log', i, j)
    {
      assert EndedBetween(log, i, j) by {
        if j == |log| {
          assert !LoadingBy(s, log[i].key, log[i].flight);
        }
      }
      var m :| i < m < j && log[m].Ended? && log[m].flight == log[i].flight && log[m].key == log[i].key;
      assert log'[m] == log[m];
    }
  }

  lemma StoredIsLoadedKept<K(!new), V(!new)>(s: State<K, V>, step: Step<K, V>)
    requires StagesOk(s) && StoredIsLoaded(s.ttl, s.log) && Enabled(s, step)
    ensures StoredIsLoaded(s.ttl, Apply(s, step).log)
  {
    hide InHand, LiveEntry, StoredFor, LoadedFor;
    LogGrows(s, step);
    var log' := Apply(s, step).log;
    forall j | 0 <= j < |log'| && log'[j].Stored?
      ensures log'[j].entry.expiresAt == log'[j].at + s.ttl
      ensures LoadedFor(log', log'[j].key, log'[j].flight, log'[j].entry.value)
    {
      if j == |s.log| {
        assert StageOk(s, s.calls[step.t]);
      }
      LoadedForGrows(s, step, log'[j].key, log'[j].flight, log'[j].entry.value);
    }
  }

  lemma ReturnedRightKept<K(!new), V(!new)>(s: State<K, V>, step: Step<K, V>)
    requires EntriesOk(s) && StagesOk(s) && ReturnedRight(s.log) && Enabled(s, step)
    ensures ReturnedRight(Apply(s, step).log)
  {
    hide InHand, StoredFor, LoadedFor;
    LogGrows(s, step);
    var log' := Apply(s, step).log;
    forall e | e in log' && e.Returned? && e.outcome.Got?
      ensures StoredFor(log', e.key, e.outcome.entry) && (e.late <==> e.outcome.entry.expiresAt < e.began)
    {
      if e !in s.log && !step.Hit? {
        assert StageOk(s, s.calls[step.t]);
      }
      StoredForGrows(s, step, e.key, e.outcome.entry);
    }
  }

  lemma ErrorGrows<K(!new), V(!new)>(s: State<K, V>, step: Step<K, V>, c: Call<K, V>)
    requires Enabled(s, step) && ErrorFor(s, c)
    ensures ErrorFor(Apply(s, step), c)
  {
    LogGrows(s, step);
    var m :| 0 <= m < |s.log| && s.log[m].Ended? && s.log[m].key == c.key && s.log[m].flight == c.flight
      && s.log[m].value.None?;
    assert Apply(s, step).log[m] == s.log[m];
  }

  lemma ErrorOfOther<K(!new), V(!new)>(s: State<K, V>, step: Step<K, V>, c: Call<K, V>)
    requires FlightsOk(s) && LeadersOk(s) && ErrorsOk(s) && Enabled(s, step) && ErrorOk(s, c)
    requires c.stage.Waiting? ==> Awaited(s, c)
    ensures ErrorOk(Apply(s, step), c)
  {
    LandedStays(s, step, c.flight);
    if c.stage.Waiting? && c.flight !in s.landed && c.flight in Apply(s, step).landed {
      var leader := s.calls[step.t];
      assert ErrorOk(s, leader) && leader.key == c.key;
      if ErrorFor(s, leader) {
        ErrorGrows(s, step, leader);
      }
    }
    if ErrorFor(s, c) {
      ErrorGrows(s, step, c);
    }
  }

  lemma ErrorOfTaker<K(!new), V(!new)>(s: State<K, V>, step: Step<K, V>, t: nat)
    requires FlightsOk(s) && Enabled(s, step) && Takes(step, t) && t in Apply(s, step).calls
    ensures ErrorOk(Apply(s, step), Apply(s, step).calls[t])
  {
    hide InHand, LiveEntry;
    if step.EndLoad? {
      assert Apply(s, step).log[|s.log|].Ended?;
    }
  }

  lemma ErrorsKept<K(!new), V(!new)>(s: State<K, V>, step: Step<K, V>)
    requires FlightsOk(s) && LeadersOk(s) && WaitersOk(s) && ErrorsOk(s) && Enabled(s, step)
    ensures ErrorsOk(Apply(s, step))
  {
    hide Enabled, Apply, FlightsOk, LeadersOk, ErrorOk;
    forall t | t in Apply(s, step).calls
      ensures ErrorOk(Apply(s, step), Apply(s, step).calls[t])
    {
      if Takes(step, t) {
        ErrorOfTaker(s, step, t);
      } else {
        OthersStay(s, step, t);
        ErrorOfOther(s, step, s.calls[t]);
      }
    }
  }

  lemma ErrorsRightKept<K(!new), V(!new)>(s: State<K, V>, step: Step<K, V>)
    requires ErrorsOk(s) && ErrorsRight(s.log) && Enabled(s, step)
    ensures ErrorsRight(Apply(s, step).log)
  {
    hide InHand, LiveEntry;
    LogGrows(s, step);
    var log' := Apply(s, step).log;
    forall i | 0 <= i < |log'| && log'[i].Returned? && log'[i].outcome.LoadFailed?
      ensures log'[i].inFlight.Some? && FailedBefore(log', log'[i].key, log'[i].inFlight.value, i)
    {
      if i == |s.log| {
        assert ErrorOk(s, s.calls[step.t]);
      }
      var m :| 0 <= m < i && s.log[m].Ended? && s.log[m].key == log'[i].key
        && s.log[m].flight == log'[i].inFlight.value && s.log[m].value.None?;
      assert log'[m] == s.log[m];
    }
  }

  /** A step writes about no flight but the one its thread leads. */
  lemma NewEntry<K(!new), V(!new)>(s: State<K, V>, step: Step<K, V>, e: LogEntry<K, V>)
    requires LeadersOk(s) && Enabled(s, step) && e in Apply(s, step).log && e !in s.log
    ensures !e.Returned? ==> step.StartLoad? || step.EndLoad? || step.Store?
    ensures !e.Returned? ==> step.t in s.calls && Leads(s.calls[step.t]) && e.flight == s.calls[step.t].flight
  {
    hide InHand, LiveEntry;
  }

  lemma LeaderFitsOther<K(!new), V(!new)>(s: State<K, V>, step: Step<K, V>, t: nat)
    requires FlightsOk(s) && LeadersOk(s) && Enabled(s, step) && !Takes(step, t)
    requires t in s.calls && Leads(s.calls[t]) && LeaderFits(s.log, s.calls[t])
    ensures LeaderFits(Apply(s, step).log, s.calls[t])
  {
    forall e | e in Apply(s, step).log && e !in s.log && !e.Returned?
      ensures e.flight != s.calls[t].flight
    {
      NewEntry(s, step, e);
    }
  }

  lemma LeaderFitsTaker<K(!new), V(!new)>(s: State<K, V>, step: Step<K, V>, t: nat)
    requires OutcomesOk(s) && Enabled(s, step) && Takes(step, t)
    requires t in Apply(s, step).calls && Leads(Apply(s, step).calls[t])
    ensures LeaderFits(Apply(s, step).log, Apply(s, step).calls[t])
  {
    hide InHand, LiveEntry;
  }

  lemma LandedFits<K(!new), V(!new)>(s: State<K, V>, step: Step<K, V>, f: nat)
    requires FlightsOk(s) && LeadersOk(s) && OutcomesOk(s) && Enabled(s, step) && f in Apply(s, step).landed
    ensures FlightFits(Apply(s, step).log, f, Apply(s, step).landed[f])
  {
    LandedStays(s, step, f);
    forall e | e in Apply(s, step).log && e !in s.log && !e.Returned?
      ensures e.flight != f
    {
      NewEntry(s, step, e);
    }
    if f !in s.landed {
      assert LeaderFits(s.log, s.calls[step.t]);
    }
  }

  lemma OutcomesKept<K(!new), V(!new)>(s: State<K, V>, step: Step<K, V>)
    requires FlightsOk(s) && LeadersOk(s) && OutcomesOk(s) && Enabled(s, step)
    ensures OutcomesOk(Apply(s, step))
  {
    hide Enabled, Apply, LeaderFits, FlightFits, FlightsOk, LeadersOk;
    var s' := Apply(s, step);
    forall e | e in s'.log
      ensures !e.Returned? ==> e.flight < s'.nextFlight
      ensures e.Returned? && e.inFlight.Some? ==>
                e.inFlight.value in s'.landed && s'.landed[e.inFlight.value] == e.outcome
    {
      EntryFits(s, step, e);
    }
    forall f | f in s'.landed
      ensures FlightFits(s'.log, f, s'.landed[f])
    {
      LandedFits(s, step, f);
    }
    forall t | t in s'.calls && Leads(s'.calls[t])
      ensures LeaderFits(s'.log, s'.calls[t])
    {
      if Takes(step, t) {
        LeaderFitsTaker(s, step, t);
      } else {
        OthersStay(s, step, t);
        LeaderFitsOther(s, step, t);
      }
    }
  }

  lemma EntryFits<K(!new), V(!new)>(s: State<K, V>, step: Step<K, V>, e: LogEntry<K, V>)
    requires FlightsOk(s) && LeadersOk(s) && OutcomesOk(s) && Enabled(s, step) && e in Apply(s, step).log
    ensures !e.Returned? ==> e.flight < Apply(s, step).nextFlight
    ensures e.Returned? && e.inFlight.Some? ==>
              && e.inFlight.value in Apply(s, step).landed
              && Apply(s, step).landed[e.inFlight.value] == e.outcome
  {
    hide InHand, LiveEntry, LeaderFits, FlightFits;
    LogGrows(s, step);
    if e in s.log {
      if e.Returned? && e.inFlight.Some? {
        LandedStays(s, step, e.inFlight.value);
      }
    } else if !e.Returned? {
      NewEntry(s, step, e);
    }
  }

  lemma OutcomesAgree<K(!new), V(!new)>(s: State<K, V>)
    requires OutcomesOk(s)
    ensures FlightsAgree(s.log)
  {
    hide FlightFits, LeaderFits;
  }

  lemma StepKeepsInv<K(!new), V(!new)>(s: State<K, V>, step: Step<K, V>)
    requires Inv(s) && Enabled(s, step)
    ensures Inv(Apply(s, step))
  {
    hide Enabled, Apply, FlightsOk, LeadersOk, WaitersOk, EntriesOk, StagesOk, LatesOk, LoadsOk, PhasesOk, ClockOk,
      ErrorsOk, OutcomesOk;
    hide Spaced, OneAtATime, StoredFirst, StoredIsLoaded, ReturnedRight, ErrorsRight, FlightsAgree;
    LogGrows(s, step);
    FlightsKept(s, step);
    LeadersKept(s, step);
    WaitersKept(s, step);
    EntriesKept(s, step);
    StagesKept(s, step);
    LatesKept(s, step);
    LoadsKept(s, step);
    PhasesKept(s, step);
    ClockKept(s, step);
    SpacedKept(s, step);
    OneAtATimeKept(s, step);
    StoredFirstKept(s, step);
    StoredIsLoadedKept(s, step);
    ReturnedRightKept(s, step);
    ErrorsKept(s, step);
    ErrorsRightKept(s, step);
    OutcomesKept(s, step);
    OutcomesAgree(Apply(s, step));
  }

  // ---------------------------------------------------------------- over whole runs

  ghost predicate Run<K(!new), V(!new)>(states: seq<State<K, V>>) {
    && states != [] && Fresh(states[0]) && states[0].ttl >= 0
    && forall i :: 0 <= i < |states| - 1 ==> Next(states[i], states[i + 1])
  }

  lemma FreshInv<K(!new), V(!new)>(s: State<K, V>)
    requires Fresh(s) && s.ttl >= 0
    ensures Inv(s)
  {
  }

  lemma {:induction false} RunInv<K(!new), V(!new)>(states: seq<State<K, V>>, i: nat)
    requires Run(states) && i < |states|
    ensures Inv(states[i])
  {
    hide Inv, Enabled, Apply, Fresh;
    if i == 0 {
      FreshInv(states[0]);
    } else {
      RunInv(states, i - 1);
      assert Next(states[i - 1], states[i - 1 + 1]);
      var step :| Enabled(states[i - 1], step) && states[i] == Apply(states[i - 1], step);
      StepKeepsInv(states[i - 1], step);
    }
  }

  /** Over every interleaving of the callers: the loads of a key never overlap, and a value that one
      of them answered is stored, once and by its flight, before the next one starts, which is
      strictly later than ttl after that store and after the load; stored values are loaded ones,
      and returned values are stored ones that had not expired when their call began, except where
      a call joined a flight that had its value already. All calls of a flight get one answer: what it
      stored, or an error exactly when its load failed. */
  lemma RunHistory<K(!new), V(!new)>(states: seq<State<K, V>>, i: nat)
    requires Run(states) && i < |states|
    ensures Spaced(states[0].ttl, states[i].log) && OneAtATime(states[i].log)
    ensures StoredFirst(states[i].log) && LoadsSpaced(states[0].ttl, states[i].log)
    ensures InTime(states[i].log) && forall key :: PhaseOf(states[i].log, key) != Disorder
    ensures StoredIsLoaded(states[0].ttl, states[i].log) && ReturnedRight(states[i].log)
    ensures ErrorsRight(states[i].log) && FlightsAgree(states[i].log)
    ensures forall t, u ::
              t in states[i].calls && u in states[i].calls
              && states[i].calls[t].stage.Loading? && states[i].calls[u].stage.Loading?
              && states[i].calls[t].key == states[i].calls[u].key
              ==> t == u
  {
    hide Spaced, OneAtATime, StoredFirst, InTime, StoredIsLoaded, ReturnedRight, LoadsSpaced, PhaseOf, ErrorsRight,
      FlightsAgree;
    RunInv(states, i);
    SameTtl(states, i);
    SpacedByStores(states[i].ttl, states[i].log);
    forall key
      ensures PhaseOf(states[i].log, key) != Disorder
    {
      assert PhaseFits(states[i], key, PhaseOf(states[i].log, key));
    }
  }

  lemma SpacedByStores<K(!new), V(!new)>(ttl: int, log: seq<LogEntry<K, V>>)
    requires Spaced(ttl, log) && StoredFirst(log) && InTime(log)
    ensures LoadsSpaced(ttl, log)
  {
    forall i, j |
      0 <= i < j < |log| && log[i].Ended? && log[i].value.Some? && log[j].Started? && log[i].key == log[j].key
      ensures log[j].at > log[i].at + ttl
    {
      assert StoredBetween(log, i, j);
      var m :| i < m < j && log[m].Stored? && log[m].key == log[i].key;
      assert log[i].at <= log[m].at && log[j].at > log[m].at + ttl;
    }
  }

  lemma {:induction false} SameTtl<K(!new), V(!new)>(states: seq<State<K, V>>, i: nat)
    requires Run(states) && i < |states|
    ensures states[i].ttl == states[0].ttl
  {
    hide Enabled, Apply, Fresh;
    if i > 0 {
      SameTtl(states, i - 1);
      assert Next(states[i - 1], states[i - 1 + 1]);
      var step :| Enabled(states[i - 1], step) && states[i] == Apply(states[i - 1], step);
      LogGrows(states[i - 1], step);
    }
  }

  /** Only a store changes the entries, and only those of the key it loaded: a load that fails
      leaves them as they were. */
  lemma OnlyStoresChange<K(!new), V(!new)>(s: State<K, V>, step: Step<K, V>)
    requires Inv(s) && Enabled(s, step)
    ensures Apply(s, step).entries != s.entries ==>
              exists t, value :: t in s.calls && s.calls[t].stage == Loaded(value)
                && LoadedFor(s.log, s.calls[t].key, s.calls[t].flight, value)
                && Apply(s, step).entries == s.entries[s.calls[t].key := Entry(value, s.now + s.ttl)]
  {
    if step.Store? {
      var c := s.calls[step.t];
      assert StageOk(s, c);
      hide Inv, LoadedFor, StoredFor;
      assert c.stage == Loaded(c.stage.value);
    } else {
      hide Inv;
      OthersKeepEntries(s, step);
    }
  }

  lemma OthersKeepEntries<K(!new), V(!new)>(s: State<K, V>, step: Step<K, V>)
    requires Enabled(s, step) && !step.Store?
    ensures Apply(s, step).entries == s.entries
  {
    hide InHand, LiveEntry;
  }

  /** The step is the first look of a call for the key. */
  predicate Begins<K(==), V>(step: Step<K, V>, key: K) {
    (step.Hit? || step.Miss?) && step.key == key
  }

  function Begun<K(==), V>(steps: seq<Step<K, V>>, key: K): nat {
    if steps == [] then 0
    else Begun(steps[..|steps| - 1], key) + if Begins(steps[|steps| - 1], key) then 1 else 0
  }

  function Answers<K(==), V>(log: seq<LogEntry<K, V>>, key: K): nat {
    if log == [] then 0
    else
      var e := log[|log| - 1];
      Answers(log[..|log| - 1], key) + if e.Returned? && e.key == key then 1 else 0
  }

  function Pending<K(==), V>(s: State<K, V>, key: K): set<nat> {
    set t | t in s.calls && s.calls[t].key == key
  }

  /** In every run the calls of a key that began are those that returned, once each, and those still
      under way. */
  lemma {:induction false} CallsReturnOnce<K(!new), V(!new)>(states: seq<State<K, V>>, steps: seq<Step<K, V>>,
                                                             key: K)
    requires |states| == |steps| + 1 && Fresh(states[0])
    requires forall k :: 0 <= k < |steps| ==>
               Enabled(states[k], steps[k]) && states[k + 1] == Apply(states[k], steps[k])
    ensures Begun(steps, key) == Answers(states[|steps|].log, key) + |Pending(states[|steps|], key)|
  {
    hide Enabled, Apply, Begins;
    if steps == [] {
      assert Pending(states[0], key) == {};
    } else {
      var n := |steps| - 1;
      CallsReturnOnce(states[..|steps|], steps[..n], key);
      assert states[..|steps|][n] == states[n];
      CallStep(states[n], steps[n], key);
    }
  }

  lemma CallStep<K(!new), V(!new)>(s: State<K, V>, step: Step<K, V>, key: K)
    requires Enabled(s, step)
    ensures var s' := Apply(s, step);
            Answers(s'.log, key) + |Pending(s', key)|
            == Answers(s.log, key) + |Pending(s, key)| + if Begins(step, key) then 1 else 0
  {
    hide Enabled, Apply, Answers, Pending;
    var s' := Apply(s, step);
    AnswersMove(s, step, key);
    PendingMoves(s, step, key);
    if step.Miss? && step.key == key {
      assert Pending(s', key) == Pending(s, key) + {step.t};
    } else if Ends(s, step, key) && !step.Hit? {
      assert Pending(s, key) == Pending(s', key) + {step.t};
    }
  }

  /** The step is the return of a call for the key. */
  predicate Ends<K(==), V>(s: State<K, V>, step: Step<K, V>, key: K) {
    (step.Hit? && step.key == key) || ((step.Land? || step.Wake?) && step.t in s.calls && s.calls[step.t].key == key)
  }

  lemma AnswersMove<K(!new), V(!new)>(s: State<K, V>, step: Step<K, V>, key: K)
    requires Enabled(s, step)
    ensures Answers(Apply(s, step).log, key) == Answers(s.log, key) + if Ends(s, step, key) then 1 else 0
  {
    hide InHand, LiveEntry;
    var log := Apply(s, step).log;
    if |log| > |s.log| {
      assert log[..|log| - 1] == s.log;
    }
  }

  lemma PendingMoves<K(!new), V(!new)>(s: State<K, V>, step: Step<K, V>, key: K)
    requires Enabled(s, step)
    ensures var now := Pending(Apply(s, step), key);
            if step.Miss? && step.key == key then step.t !in Pending(s, key) && now == Pending(s, key) + {step.t}
            else if Ends(s, step, key) && !step.Hit? then step.t in Pending(s, key) && now == Pending(s, key) - {step.t}
            else now == Pending(s, key)
  {
    hide InHand, LiveEntry;
  }

  /** No call is stuck: in every reachable state some thread can take a step for it, itself or
      the leader of its flight. */
  lemma NobodyStuck<K(!new), V(!new)>(s: State<K, V>, t: nat)
    requires Inv(s) && t in s.calls
    ensures exists u, step :: u in s.calls && Takes(step, u) && Enabled(s, step)
              && (u == t || (s.calls[t].stage.Waiting? && Leads(s.calls[u]) && s.calls[u].flight == s.calls[t].flight))
  {
    hide InHand, LoadedFor, StoredFor;
    if s.calls[t].stage.Waiting? && s.calls[t].flight !in s.landed {
      assert Led(s, s.calls[t].key);
      var u :| u in s.calls && Leads(s.calls[u]) && s.calls[u].key == s.calls[t].key;
      CanMove(s, u);
    } else {
      CanMove(s, t);
    }
  }

  lemma CanMove<K(!new), V(!new)>(s: State<K, V>, t: nat)
    requires t in s.calls && (s.calls[t].stage.Waiting? ==> s.calls[t].flight in s.landed)
    ensures exists step :: Takes(step, t) && Enabled(s, step)
  {
    var c := s.calls[t];
    var step: Step<K, V> := match c.stage
      case Missed(_) => if c.key in s.flights then Join(t) else Lead(t)
      case Waiting(_) => Wake(t)
      case Rechecking => if LiveEntry(s.entries, c.key, s.now).Some? then RecheckHit(t) else RecheckMiss(t)
      case Cleared => StartLoad(t)
      case Loading => EndLoad(t, None)
      case Loaded(_) => Store(t)
      case Finishing(_) => Land(t);
    assert Takes(step, t) && Enabled(s, step);
  }

  // ---------------------------------------------------------------- an expired answer

  function Empty(): State<int, int> {
    State(5, 0, map[], map[], map[], 0, map[], [])
  }

  /** At time 0 thread 0 has loaded and stored 42 for key 1, with a time to live of 5, and has not
      yet taken its flight off. */
  function Holding(): State<int, int> {
    State(5, 0, map[1 := Entry(42, 5)], map[1 := 0], map[], 1,
          map[0 := Call(1, 0, 0, Finishing(Got(Entry(42, 5))))],
          [Started(1, 0, 0), Ended(1, 0, 0, Some(42)), Stored(1, 0, 0, Entry(42, 5))])
  }

  lemma Moves<K(!new), V(!new)>(s: State<K, V>, step: Step<K, V>)
    requires Enabled(s, step)
    ensures Next(s, Apply(s, step))
  {
  }

  /** Before that, its load is running. */
  function Running(): State<int, int> {
    State(5, 0, map[], map[1 := 0], map[], 1, map[0 := Call(1, 0, 0, Loading)], [Started(1, 0, 0)])
  }

  lemma Starts() returns (states: seq<State<int, int>>)
    ensures Run(states) && states[|states| - 1] == Running()
  {
    var s0 := Empty();
    var s1 := Apply(s0, Miss(0, 1));
    Moves(s0, Miss(0, 1));
    var s2 := Apply(s1, Lead(0));
    Moves(s1, Lead(0));
    var s3 := Apply(s2, RecheckMiss(0));
    Moves(s2, RecheckMiss(0));
    Moves(s3, StartLoad(0));
    assert Apply(s3, StartLoad(0)) == Running();
    hide Enabled, Apply;
    states := [s0, s1, s2, s3, Running()];
  }

  lemma LoadsAndHolds() returns (states: seq<State<int, int>>)
    ensures Run(states) && states[|states| - 1] == Holding()
  {
    var loaded := Apply(Running(), EndLoad(0, Some(42)));
    Moves(Running(), EndLoad(0, Some(42)));
    Moves(loaded, Store(0));
    assert Apply(loaded, Store(0)) == Holding();
    hide Enabled, Apply, Next, Fresh, Running, Holding;
    states := Starts();
    states := states + [loaded, Holding()];
  }

  /** At time 6 the value has expired, and thread 1 has missed it and joined that flight. */
  function Joined(): State<int, int> {
    Holding().(now := 6, calls := Holding().calls[1 := Call(1, 6, 0, Waiting(true))])
  }

  lemma Joins() returns (a: State<int, int>, b: State<int, int>)
    ensures Next(Holding(), a) && Next(a, b) && Next(b, Joined())
  {
    a := Holding().(now := 6);
    Moves(Holding(), Tick(6));
    assert a.calls[0] == Call(1, 0, 0, Finishing(Got(Entry(42, 5))));
    assert InHand(a, 1) == Some(0);
    b := Apply(a, Miss(1, 1));
    Moves(a, Miss(1, 1));
    Moves(b, Join(1));
    assert Apply(b, Join(1)) == Joined();
  }

  lemma Wakes() returns (a: State<int, int>, b: State<int, int>)
    ensures Next(Joined(), a) && Next(a, b)
    ensures b.log == Holding().log
                     + [Returned(1, Some(0), 0, 6, false, Got(Entry(42, 5))),
                        Returned(1, Some(0), 6, 6, true, Got(Entry(42, 5)))]
  {
    a := Apply(Joined(), Land(0));
    Moves(Joined(), Land(0));
    b := Apply(a, Wake(1));
    Moves(a, Wake(1));
  }

  /** A call can get a value that had expired before it began: it joins the flight after the
      value was stored and expired, but before the flight was taken off. */
  lemma ExpiredAnswer() returns (states: seq<State<int, int>>, e: LogEntry<int, int>)
    ensures Run(states)
    ensures e in states[|states| - 1].log && e.Returned? && e.outcome.Got? && e.outcome.entry.expiresAt < e.began
  {
    hide Next, Fresh, Joined;
    var first := LoadsAndHolds();
    var s1, s2 := Joins();
    var s3, s4 := Wakes();
    states := first + [s1, s2, Joined(), s3, s4];
    e := s4.log[|s4.log| - 1];
  }
}
