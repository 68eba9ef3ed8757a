/** Sessions of the admin interface: one stored session per installation, the
    tokens in memory, the proactive refresh timer and the restore effect, with
    every asynchronous continuation carrying the installation id it captured.
    Whose login a session stems from (`owner`) is not recorded by the program;
    it is followed here to say which session ends up where.
    Times are milliseconds of one clock. */
module AuthSession {
  import opened Wrappers

  /** A token response; `issuedAt` is when the server started counting `expiresIn` seconds. */
  datatype Response = Response(accessToken: string, refreshToken: string, expiresIn: nat, issuedAt: int)

  /** `StoredTokens`, with the server's own expiry and the installation the user logged in to. */
  datatype Session = Session(accessToken: string, refreshToken: string, expiresAt: int, serverExpiry: int, owner: string)

  /** The armed timeout: its callback captured an installation id and the refresh token of `owner`. */
  datatype Timer = Timer(due: int, captured: string, owner: string, token: string)

  /** A refresh request on its way, with the installation id of the callback that sent it, the refresh token it
      sent and the owner of that. */
  datatype Flight = Flight(captured: string, owner: string, token: string, startedAt: int)

  /** `profiles`: installation ids captured by profile loads whose failure still clears a session. */
  datatype State = State(now: int, store: map<string, Session>, installation: string, tokens: Option<Session>,
                         timer: Option<Timer>, refreshing: multiset<Flight>, profiles: multiset<string>)

  const SAFETY_MARGIN := 30

  function StorageKey(installationId: string): string { "dms.tokens." + installationId }

  function ToStored(r: Response, now: int, owner: string): Session {
    Session(r.accessToken, r.refreshToken, now + (r.expiresIn - SAFETY_MARGIN) * 1000, r.issuedAt + r.expiresIn * 1000, owner)
  }

  function Max(a: int, b: int): int { if a < b then b else a }

  /** The timer effect, which runs when the tokens or the callbacks changed. */
  function Armed(s: State): State {
    s.(timer := if s.tokens.None? then None
                else var t := s.tokens.value;
                     Some(Timer(Max(t.expiresAt, s.now), s.installation, t.owner, t.refreshToken)))
  }

  /** The request the callback of a timer sends. */
  function Sent(timer: Timer, now: int): Flight { Flight(timer.captured, timer.owner, timer.token, now) }

  /** `clearSession` of the callback that captured this id. */
  function Cleared(s: State, captured: string): State {
    Armed(s.(tokens := None, store := s.store - {StorageKey(captured)}))
  }

  /** `applySession` of the callback that captured this id, up to the profile load. */
  function Applied(s: State, captured: string, owner: string, r: Response): State {
    var stored := ToStored(r, s.now, owner);
    Armed(s.(tokens := Some(stored), store := s.store[StorageKey(captured) := stored]))
  }

  /** The restore effect. */
  function Restored(s: State): State {
    var key := StorageKey(s.installation);
    if key !in s.store || s.store[key].expiresAt <= s.now then Armed(s.(tokens := None))
    else Armed(s.(tokens := Some(s.store[key]), profiles := s.profiles + multiset{s.installation}))
  }

  datatype Event =
    | Tick(elapsed: nat)
    | Fire
    | RefreshOk(flight: Flight, response: Response)
    | RefreshFailed(flight: Flight)
    | LoginOk(captured: string, response: Response)
    | ProfileFailed(captured: string)
    | Logout
    | SwitchTo(id: string)
    | Restore
    | Reload(id: string)

  function Apply(s: State, e: Event): State {
    match e
    case Tick(elapsed) => s.(now := s.now + elapsed)
    case Fire =>
      if s.timer.None? then s
      else s.(timer := None, refreshing := s.refreshing + multiset{Sent(s.timer.value, s.now)})
    case RefreshOk(f, r) =>
      Applied(s.(refreshing := s.refreshing - multiset{f}, profiles := s.profiles + multiset{f.captured}), f.captured, f.owner, r)
    case RefreshFailed(f) => Cleared(s.(refreshing := s.refreshing - multiset{f}), f.captured)
    case LoginOk(captured, r) => Applied(s, captured, captured, r)
    case ProfileFailed(captured) => Cleared(s.(profiles := s.profiles - multiset{captured}), captured)
    case Logout => Cleared(s, s.installation)
    case SwitchTo(id) => if id == s.installation then s else Armed(s.(installation := id))
    case Restore => Restored(s)
    case Reload(id) => State(s.now, s.store, id, None, None, multiset{}, multiset{})
  }

  // ------------------------------------------------------------ timing

  /** What the surroundings guarantee: time from issue to storing, duration of a refresh request with
      either outcome, and the shortest lifetime the server hands out, in seconds. */
  datatype Bounds = Bounds(maxStore: nat, maxRefresh: nat, minLifetime: nat)

  predicate Timely(b: Bounds, s: State, r: Response) {
    s.now - b.maxStore <= r.issuedAt <= s.now && r.expiresIn >= b.minLifetime
  }

  /** Timers fire on time and refreshes answer in time; the rest may happen whenever it is possible. */
  ghost predicate Possible(b: Bounds, s: State, e: Event) {
    match e
    case Tick(elapsed) =>
      && (s.timer.Some? ==> s.now + elapsed <= s.timer.value.due)
      && (forall f :: f in s.refreshing ==> s.now + elapsed <= f.startedAt + b.maxRefresh)
    case Fire => s.timer.Some? && s.timer.value.due <= s.now
    case RefreshOk(f, r) => f in s.refreshing && Timely(b, s, r)
    case RefreshFailed(f) => f in s.refreshing
    case LoginOk(_, r) => Timely(b, s, r)
    case ProfileFailed(captured) => captured in s.profiles
    case _ => true
  }

  ghost predicate PossibleRun(b: Bounds, s: State, events: seq<Event>)
    decreases |events|
  {
    events != [] ==> Possible(b, s, events[0]) && PossibleRun(b, Apply(s, events[0]), events[1..])
  }

  function Run(s: State, events: seq<Event>): State
    decreases |events|
  {
    if events == [] then s else Run(Apply(s, events[0]), events[1..])
  }

  function Start(now: int, installation: string): State {
    State(now, map[], installation, None, None, multiset{}, multiset{})
  }

  /** No expired access token is in use. */
  predicate Unexpired(s: State) { s.tokens.Some? ==> s.now < s.tokens.value.serverExpiry }

  predicate WithinBudget(b: Bounds) {
    b.maxStore + b.maxRefresh < 1000 * (if b.minLifetime < SAFETY_MARGIN then b.minLifetime else SAFETY_MARGIN)
  }

  /** A refresh begun at `start` answers before the server lets the session expire. */
  predicate InTime(b: Bounds, start: int, t: Session) { start + b.maxRefresh < t.serverExpiry }

  /** Open refreshes are within their time, and every stored session comes due early enough. */
  ghost predicate Quiet(b: Bounds, s: State) {
    && (forall f :: f in s.refreshing ==> s.now <= f.startedAt + b.maxRefresh)
    && (forall key :: key in s.store ==> InTime(b, s.store[key].expiresAt, s.store[key]))
  }

  /** Either the timer or a refresh already on its way replaces or clears the tokens in time. */
  ghost predicate Guarded(b: Bounds, s: State, t: Session) {
    (s.timer.Some? && InTime(b, s.timer.value.due, t)) || exists f :: f in s.refreshing && InTime(b, f.startedAt, t)
  }

  ghost predicate Invariant(b: Bounds, s: State) {
    && Quiet(b, s)
    && (s.timer.Some? ==> s.now <= s.timer.value.due)
    && (s.tokens.Some? ==> InTime(b, s.tokens.value.expiresAt, s.tokens.value) && Guarded(b, s, s.tokens.value))
  }

  lemma ClearedKeeps(b: Bounds, s: State, captured: string)
    requires Quiet(b, s)
    ensures Invariant(b, Cleared(s, captured))
  {
  }

  lemma AppliedKeeps(b: Bounds, s: State, captured: string, owner: string, r: Response)
    requires WithinBudget(b) && Quiet(b, s) && Timely(b, s, r)
    ensures Invariant(b, Applied(s, captured, owner, r))
  {
    var t := ToStored(r, s.now, owner);
    assert InTime(b, Max(t.expiresAt, s.now), t);
  }

  lemma RestoredKeeps(b: Bounds, s: State)
    requires Quiet(b, s)
    ensures Invariant(b, Restored(s))
  {
  }

  lemma FireKeeps(b: Bounds, s: State)
    requires Invariant(b, s) && Possible(b, s, Fire)
    ensures Invariant(b, Apply(s, Fire))
  {
    var s' := Apply(s, Fire);
    var f := Sent(s.timer.value, s.now);
    assert f in s'.refreshing && forall g :: g in s'.refreshing <==> g == f || g in s.refreshing;
  }

  lemma SwitchKeeps(b: Bounds, s: State, id: string)
    requires Invariant(b, s)
    ensures Invariant(b, Apply(s, SwitchTo(id)))
  {
    var s' := Apply(s, SwitchTo(id));
    assert s'.refreshing == s.refreshing && s'.store == s.store && s'.tokens == s.tokens && s'.now == s.now;
  }

  lemma FewerFlights(b: Bounds, s: State, f: Flight, profiles: multiset<string>)
    requires Quiet(b, s)
    ensures Quiet(b, s.(refreshing := s.refreshing - multiset{f}, profiles := profiles))
  {
    assert forall g :: g in s.refreshing - multiset{f} ==> g in s.refreshing;
  }

  lemma StepInvariant(b: Bounds, s: State, e: Event)
    requires WithinBudget(b) && Invariant(b, s) && Possible(b, s, e)
    ensures Invariant(b, Apply(s, e))
  {
    hide Armed, Cleared, Applied, Restored;
    match e
    case Tick(_) =>
    case Fire => FireKeeps(b, s);
    case RefreshOk(f, r) =>
      FewerFlights(b, s, f, s.profiles + multiset{f.captured});
      AppliedKeeps(b, s.(refreshing := s.refreshing - multiset{f}, profiles := s.profiles + multiset{f.captured}), f.captured, f.owner, r);
    case RefreshFailed(f) =>
      FewerFlights(b, s, f, s.profiles);
      ClearedKeeps(b, s.(refreshing := s.refreshing - multiset{f}), f.captured);
    case LoginOk(captured, r) => AppliedKeeps(b, s, captured, captured, r);
    case ProfileFailed(captured) => ClearedKeeps(b, s.(profiles := s.profiles - multiset{captured}), captured);
    case Logout => ClearedKeeps(b, s, s.installation);
    case SwitchTo(id) => SwitchKeeps(b, s, id);
    case Restore => RestoredKeeps(b, s);
    case Reload(_) =>
  }

  lemma {:induction false} RunInvariant(b: Bounds, s: State, events: seq<Event>)
    requires WithinBudget(b) && Invariant(b, s) && PossibleRun(b, s, events)
    ensures Invariant(b, Run(s, events)) && Unexpired(Run(s, events))
    decreases |events|
  {
    if events != [] {
      StepInvariant(b, s, events[0]);
      RunInvariant(b, Apply(s, events[0]), events[1..]);
    }
  }

  /** The run that uses up every delay: log in, wait for the timer, wait for the refresh. */
  function SlowRun(b: Bounds, s: State): seq<Event> {
    var lifetime := b.minLifetime;
    [Tick(b.maxStore), LoginOk(s.installation, Response("a", "r", lifetime, s.now)),
     Tick(if lifetime > SAFETY_MARGIN then (lifetime - SAFETY_MARGIN) * 1000 else 0), Fire, Tick(b.maxRefresh)]
  }

  /** A run made one step longer. */
  lemma {:induction false} Extend(b: Bounds, s: State, events: seq<Event>, e: Event)
    requires PossibleRun(b, s, events) && Possible(b, Run(s, events), e)
    ensures PossibleRun(b, s, events + [e]) && Run(s, events + [e]) == Apply(Run(s, events), e)
    decreases |events|
  {
    hide Apply, Possible;
    if events == [] {
      assert [e][1..] == [] && events + [e] == [e];
      assert Run(Apply(s, e), []) == Apply(s, e);
    } else {
      assert (events + [e])[1..] == events[1..] + [e];
      Extend(b, Apply(s, events[0]), events[1..], e);
    }
  }

  /** One run after another. */
  lemma {:induction false} RunConcat(b: Bounds, s: State, first: seq<Event>, second: seq<Event>)
    requires PossibleRun(b, s, first) && PossibleRun(b, Run(s, first), second)
    ensures PossibleRun(b, s, first + second) && Run(s, first + second) == Run(Run(s, first), second)
    decreases |first|
  {
    hide Apply, Possible;
    if first == [] {
      assert first + second == second;
    } else {
      assert (first + second)[1..] == first[1..] + second;
      RunConcat(b, Apply(s, first[0]), first[1..], second);
    }
  }

  lemma SlowRunExpires(b: Bounds, now: int, installation: string)
    requires !WithinBudget(b)
    ensures var s := Start(now, installation);
            PossibleRun(b, s, SlowRun(b, s)) && !Unexpired(Run(s, SlowRun(b, s)))
  {
    hide Run, PossibleRun;
    var s := Start(now, installation);
    var ops := SlowRun(b, s);
    NoEvents(b, s);
    Extend(b, s, [], ops[0]);
    Extend(b, s, [] + [ops[0]], ops[1]);
    Extend(b, s, [] + [ops[0]] + [ops[1]], ops[2]);
    Extend(b, s, [] + [ops[0]] + [ops[1]] + [ops[2]], ops[3]);
    Extend(b, s, [] + [ops[0]] + [ops[1]] + [ops[2]] + [ops[3]], ops[4]);
    assert ops == [] + [ops[0]] + [ops[1]] + [ops[2]] + [ops[3]] + [ops[4]];
  }

  lemma NoEvents(b: Bounds, s: State)
    ensures PossibleRun(b, s, []) && Run(s, []) == s
  {
  }

  /** The access token in memory has not expired in any reachable state, over every interleaving of
      logins, refreshes, failures, switches, restores and page reloads, exactly when the delay from
      issue to storing and the duration of a refresh together stay below the margin of 30 seconds
      (or below the lifetime, where the server hands out a shorter one). */
  lemma NeverExpiredIff(b: Bounds, now: int, installation: string)
    ensures (forall events :: PossibleRun(b, Start(now, installation), events) ==> Unexpired(Run(Start(now, installation), events)))
            <==> WithinBudget(b)
  {
    var s := Start(now, installation);
    if WithinBudget(b) {
      forall events | PossibleRun(b, s, events) ensures Unexpired(Run(s, events)) {
        RunInvariant(b, s, events);
      }
    } else {
      SlowRunExpires(b, now, installation);
    }
  }

  // ------------------------------------------------------------ stored sessions

  lemma KeysInjective(a: string, b: string)
    ensures StorageKey(a) == StorageKey(b) <==> a == b
    ensures StorageKey(a) != "dms.installations" && StorageKey(a) != "dms.activeInstallationId"
  {
    assert StorageKey(a)[11..] == a && StorageKey(b)[11..] == b;
    assert StorageKey(a)[4] == 't';
  }

  /** The installation id captured by the callback that runs in this step, if it may write a session. */
  function Writer(s: State, e: Event): Option<string> {
    match e
    case RefreshOk(f, _) => Some(f.captured)
    case RefreshFailed(f) => Some(f.captured)
    case LoginOk(captured, _) => Some(captured)
    case ProfileFailed(captured) => Some(captured)
    case Logout => Some(s.installation)
    case _ => None
  }

  ghost predicate NeverWrites(s: State, events: seq<Event>, id: string)
    decreases |events|
  {
    events != [] ==> Writer(s, events[0]) != Some(id) && NeverWrites(Apply(s, events[0]), events[1..], id)
  }

  function StoredSession(s: State, id: string): Option<Session> {
    if StorageKey(id) in s.store then Some(s.store[StorageKey(id)]) else None
  }

  lemma ClearedFrame(s: State, captured: string, id: string)
    ensures StoredSession(Cleared(s, captured), id) == if id == captured then None else StoredSession(s, id)
  {
    hide StorageKey;
    KeysInjective(captured, id);
  }

  lemma AppliedFrame(s: State, captured: string, owner: string, r: Response, id: string)
    ensures StoredSession(Applied(s, captured, owner, r), id) ==
            if id == captured then Some(ToStored(r, s.now, owner)) else StoredSession(s, id)
  {
    hide StorageKey, ToStored;
    KeysInjective(captured, id);
  }

  /** What a step leaves as the stored session of one installation. */
  lemma StepStores(s: State, e: Event, id: string)
    ensures StoredSession(Apply(s, e), id) ==
            if Writer(s, e) != Some(id) then StoredSession(s, id)
            else match e
                 case RefreshOk(f, r) => Some(ToStored(r, s.now, f.owner))
                 case LoginOk(_, r) => Some(ToStored(r, s.now, id))
                 case _ => None
  {
    hide StorageKey, ToStored, Cleared, Applied;
    match e
    case RefreshOk(f, r) =>
      AppliedFrame(s.(refreshing := s.refreshing - multiset{f}, profiles := s.profiles + multiset{f.captured}), f.captured, f.owner, r, id);
    case RefreshFailed(f) => ClearedFrame(s.(refreshing := s.refreshing - multiset{f}), f.captured, id);
    case LoginOk(captured, r) => AppliedFrame(s, captured, captured, r, id);
    case ProfileFailed(captured) => ClearedFrame(s.(profiles := s.profiles - multiset{captured}), captured, id);
    case Logout => ClearedFrame(s, s.installation, id);
    case _ =>
  }

  /** What a step leaves in memory. */
  lemma StepMemory(s: State, e: Event)
    ensures Apply(s, e).installation == match e case SwitchTo(id) => id case Reload(id) => id case _ => s.installation
    ensures Apply(s, e).tokens ==
            match e
            case RefreshOk(f, r) => Some(ToStored(r, s.now, f.owner))
            case LoginOk(captured, r) => Some(ToStored(r, s.now, captured))
            case Restore =>
              var t := StoredSession(s, s.installation);
              if t.Some? && s.now < t.value.expiresAt then t else None
            case Tick(_) => s.tokens
            case Fire => s.tokens
            case SwitchTo(_) => s.tokens
            case _ => None
  {
    hide StorageKey, ToStored;
  }

  /** What a step leaves under way. */
  lemma StepFlights(s: State, e: Event)
    ensures Apply(s, e).refreshing ==
            match e
            case Fire =>
              if s.timer.None? then s.refreshing
              else s.refreshing + multiset{Sent(s.timer.value, s.now)}
            case RefreshOk(f, _) => s.refreshing - multiset{f}
            case RefreshFailed(f) => s.refreshing - multiset{f}
            case Reload(_) => multiset{}
            case _ => s.refreshing
    ensures Apply(s, e).now == s.now + if e.Tick? then e.elapsed else 0
  {
    hide StorageKey, ToStored;
  }

  /** What a step leaves of the profile loads whose failure still clears a session. */
  lemma StepProfiles(s: State, e: Event)
    ensures Apply(s, e).profiles ==
            match e
            case RefreshOk(f, _) => s.profiles + multiset{f.captured}
            case ProfileFailed(captured) => s.profiles - multiset{captured}
            case Restore => if Apply(s, e).tokens.Some? then s.profiles + multiset{s.installation} else s.profiles
            case Reload(_) => multiset{}
            case _ => s.profiles
  {
    hide StorageKey, ToStored, Max;
  }

  /** A stored session changes only in steps of callbacks that captured its own installation id: over
      any other interleaving it stays, and switching, restoring and reloading write none at all. */
  lemma {:induction false} StoredSessionFrame(s: State, events: seq<Event>, id: string)
    requires NeverWrites(s, events, id)
    ensures StoredSession(Run(s, events), id) == StoredSession(s, id)
    decreases |events|
  {
    hide Apply, StoredSession;
    if events != [] {
      StepStores(s, events[0], id);
      StoredSessionFrame(Apply(s, events[0]), events[1..], id);
    }
  }

  /** Going away and coming back restores a session that has not come due, whatever happened elsewhere. */
  lemma ReturnRestores(s: State, events: seq<Event>, id: string)
    requires NeverWrites(s, events, id) && StoredSession(s, id).Some?
    requires var s' := Run(s, events); s'.installation == id && s'.now < StoredSession(s, id).value.expiresAt
    ensures Restored(Run(s, events)).tokens == StoredSession(s, id)
  {
    StoredSessionFrame(s, events, id);
  }

  // ------------------------------------------------------------ whose session is in memory

  /** The tokens in memory are the stored session of the active installation. */
  predicate OwnSession(s: State) {
    s.tokens.Some? ==> StoredSession(s, s.installation) == s.tokens
  }

  /** The session a step hands to `setTokens` on behalf of another installation than the active one. */
  function LateSession(s: State, e: Event): Option<Session> {
    match e
    case RefreshOk(f, r) => if f.captured != s.installation then Some(ToStored(r, s.now, f.owner)) else None
    case LoginOk(captured, r) => if captured != s.installation then Some(ToStored(r, s.now, captured)) else None
    case _ => None
  }

  /** Exactly a login or refresh that finishes after the installation was switched puts a foreign session
      in memory; no other step does, and after a switch the restore effect always settles it. */
  lemma OwnSessionIff(s: State, e: Event)
    requires OwnSession(s) && !e.SwitchTo?
    ensures OwnSession(Apply(s, e)) <==> (LateSession(s, e).Some? ==> StoredSession(s, s.installation) == LateSession(s, e))
    ensures forall id :: OwnSession(Apply(Apply(s, SwitchTo(id)), Restore))
  {
    hide Apply, StoredSession, ToStored;
    StepMemory(s, e);
    StepStores(s, e, s.installation);
    forall id ensures OwnSession(Apply(Apply(s, SwitchTo(id)), Restore)) {
      RestoredIsOwn(Apply(s, SwitchTo(id)));
    }
    if e.Restore? {
      RestoredIsOwn(s);
    }
  }

  lemma RestoredIsOwn(s: State)
    ensures OwnSession(Apply(s, Restore))
  {
    hide StorageKey;
  }

  // ------------------------------------------------------------ whose session is stored

  /** The armed timeout refreshes the tokens in memory, for the active installation. */
  predicate TimerOfTokens(s: State) {
    s.timer.Some? ==>
      && s.tokens.Some? && s.timer.value.captured == s.installation
      && s.timer.value.owner == s.tokens.value.owner && s.timer.value.token == s.tokens.value.refreshToken
  }

  /** Every stored session stems from a login to the installation it is stored for. */
  ghost predicate StoreOwned(s: State) {
    forall id :: StoredSession(s, id).Some? ==> StoredSession(s, id).value.owner == id
  }

  /** Every open refresh will be stored for the installation whose token it sent. */
  ghost predicate FlightsOwned(s: State) { forall f :: f in s.refreshing ==> f.captured == f.owner }

  predicate MemoryOwned(s: State) { s.tokens.Some? ==> s.tokens.value.owner == s.installation }

  ghost predicate AlwaysStoreOwned(s: State, events: seq<Event>)
    decreases |events|
  {
    StoreOwned(s) && (events != [] ==> AlwaysStoreOwned(Apply(s, events[0]), events[1..]))
  }

  ghost predicate AlwaysFlightsOwned(s: State, events: seq<Event>)
    decreases |events|
  {
    FlightsOwned(s) && (events != [] ==> AlwaysFlightsOwned(Apply(s, events[0]), events[1..]))
  }

  /** No timer fires while a session of another installation is in memory. */
  ghost predicate FiresOwned(s: State, events: seq<Event>)
    decreases |events|
  {
    events != [] ==> (events[0].Fire? ==> MemoryOwned(s)) && FiresOwned(Apply(s, events[0]), events[1..])
  }

  lemma StepTimer(s: State, e: Event)
    requires TimerOfTokens(s)
    ensures TimerOfTokens(Apply(s, e))
  {
    hide StorageKey, ToStored;
  }

  lemma StepStoreOwned(s: State, e: Event)
    requires StoreOwned(s)
    ensures StoreOwned(Apply(s, e)) <==> (e.RefreshOk? ==> e.flight.captured == e.flight.owner)
  {
    hide Apply, StoredSession;
    forall id ensures StoredSession(Apply(s, e), id).Some? ==>
                        StoredSession(Apply(s, e), id).value.owner == id || (e.RefreshOk? && e.flight.captured != e.flight.owner) {
      StepStores(s, e, id);
    }
    if e.RefreshOk? {
      StepStores(s, e, e.flight.captured);
    }
  }

  lemma StepFlightsOwned(b: Bounds, s: State, e: Event)
    requires TimerOfTokens(s) && FlightsOwned(s) && Possible(b, s, e)
    ensures FlightsOwned(Apply(s, e)) <==> (e.Fire? ==> MemoryOwned(s))
  {
    StepFlights(s, e);
    hide Apply;
    if e.Fire? {
      assert Sent(s.timer.value, s.now) in Apply(s, e).refreshing;
    }
  }

  /** The store holds every session under its own installation's key throughout a run exactly when no refresh
      answers that was sent with another installation's token. */
  lemma {:induction false} StoreOwnedIff(s: State, events: seq<Event>)
    requires StoreOwned(s)
    ensures AlwaysStoreOwned(s, events) <==>
            forall e :: e in events && e.RefreshOk? ==> e.flight.captured == e.flight.owner
    decreases |events|
  {
    hide StoreOwned, Apply;
    if events != [] {
      StepStoreOwned(s, events[0]);
      assert events == [events[0]] + events[1..];
      if StoreOwned(Apply(s, events[0])) {
        StoreOwnedIff(Apply(s, events[0]), events[1..]);
      } else {
        assert events[0] in events;
      }
    }
  }

  /** No such refresh is under way throughout a possible run exactly when every timer that fires does so with
      the active installation's own session in memory; then the store stays owned as well. */
  lemma {:induction false} FlightsOwnedIff(b: Bounds, s: State, events: seq<Event>)
    requires TimerOfTokens(s) && FlightsOwned(s) && PossibleRun(b, s, events)
    ensures AlwaysFlightsOwned(s, events) <==> FiresOwned(s, events)
    ensures StoreOwned(s) && FiresOwned(s, events) ==> AlwaysStoreOwned(s, events)
    decreases |events|
  {
    hide StoreOwned, Apply, MemoryOwned, TimerOfTokens;
    if events != [] {
      var e, next := events[0], Apply(s, events[0]);
      StepTimer(s, e);
      StepFlightsOwned(b, s, e);
      if FlightsOwned(next) {
        FlightsOwnedIff(b, next, events[1..]);
        if StoreOwned(s) {
          StepStoreOwned(s, e);
        }
      }
    }
  }

  /** Which steps bring another installation's session into memory: a login or refresh that finishes for
      another installation, and a switch until the restore effect has run. */
  lemma MemoryOwnedIff(s: State, e: Event)
    requires MemoryOwned(s) && StoreOwned(s) && (e.RefreshOk? ==> e.flight.captured == e.flight.owner)
    ensures MemoryOwned(Apply(s, e)) <==>
            match e
            case RefreshOk(f, _) => f.captured == s.installation
            case LoginOk(captured, _) => captured == s.installation
            case SwitchTo(id) => id == s.installation || s.tokens.None?
            case _ => true
    ensures MemoryOwned(Apply(s, Restore)) && forall id :: MemoryOwned(Apply(Apply(s, SwitchTo(id)), Restore))
  {
    RestoredOwned(s);
    forall id ensures MemoryOwned(Apply(Apply(s, SwitchTo(id)), Restore)) {
      StepStoreOwned(s, SwitchTo(id));
      RestoredOwned(Apply(s, SwitchTo(id)));
    }
    hide StoreOwned, Restored, StorageKey;
  }

  lemma RestoredOwned(s: State)
    requires StoreOwned(s)
    ensures MemoryOwned(Restored(s))
  {
    hide StorageKey;
    assert StoredSession(s, s.installation).Some? ==> StoredSession(s, s.installation).value.owner == s.installation;
  }

  // ------------------------------------------------------------ whose answer is kept

  /** The answer of a login or refresh. */
  function AnswerOf(e: Event): Option<Response> {
    match e
    case RefreshOk(_, r) => Some(r)
    case LoginOk(_, r) => Some(r)
    case _ => None
  }

  /** The session holds the two tokens of the answer, each in its place. */
  predicate HoldsPair(t: Session, r: Response) { t.accessToken == r.accessToken && t.refreshToken == r.refreshToken }

  /** After a login or refresh the answer's access token and refresh token are in memory and stored for the
      installation the callback captured, due 30 seconds before the lifetime given is over. */
  lemma AnswerKept(s: State, e: Event)
    requires AnswerOf(e).Some?
    ensures var s', r := Apply(s, e), AnswerOf(e).value;
            && s'.tokens.Some? && HoldsPair(s'.tokens.value, r)
            && StoredSession(s', Writer(s, e).value) == s'.tokens
            && s'.tokens.value.expiresAt + 30000 == s.now + r.expiresIn * 1000
            && s'.tokens.value.serverExpiry == r.issuedAt + r.expiresIn * 1000
  {
    StepMemory(s, e);
    StepStores(s, e, Writer(s, e).value);
    hide Apply, StoredSession;
  }

  /** After a logout, a failed refresh or a failed profile load nothing is in memory, no timer runs, and exactly the
      session of the installation the callback captured is gone from storage. */
  lemma SessionEnded(s: State, e: Event, captured: string, id: string)
    requires match e
             case Logout => captured == s.installation
             case RefreshFailed(f) => captured == f.captured
             case ProfileFailed(c) => captured == c
             case _ => false
    ensures var s' := Apply(s, e);
            && s'.tokens.None? && s'.timer.None?
            && StoredSession(s', id) == if id == captured then None else StoredSession(s, id)
  {
    StepStores(s, e, id);
    hide StoredSession, StorageKey;
  }

  ghost predicate Held(s: State, t: Session) {
    s.tokens == Some(t) || exists id :: StoredSession(s, id) == Some(t)
  }

  ghost predicate Answered(events: seq<Event>, t: Session) {
    exists e :: e in events && AnswerOf(e).Some? && HoldsPair(t, AnswerOf(e).value)
  }

  lemma StepHeld(s: State, e: Event, t: Session)
    requires Held(Apply(s, e), t)
    ensures Held(s, t) || (AnswerOf(e).Some? && HoldsPair(t, AnswerOf(e).value))
  {
    StepMemory(s, e);
    hide Apply, StoredSession;
    if AnswerOf(e).Some? {
      AnswerKept(s, e);
    }
    if id :| StoredSession(Apply(s, e), id) == Some(t) {
      StepStores(s, e, id);
    }
  }

  /** Over any run every session in memory or storage was there before or holds the pair of tokens of one
      answer of the run, unmixed. */
  lemma {:induction false} PairsFromAnswers(s: State, events: seq<Event>, t: Session)
    requires Held(Run(s, events), t)
    ensures Held(s, t) || Answered(events, t)
    decreases |events|
  {
    hide Held, Apply, HoldsPair;
    if events != [] {
      PairsFromAnswers(Apply(s, events[0]), events[1..], t);
      if Held(Apply(s, events[0]), t) {
        StepHeld(s, events[0], t);
        assert events[0] in events;
      } else {
        assert forall e :: e in events[1..] ==> e in events;
      }
    }
  }

  /** In every state of every run from the start, a timer that fires sends the refresh token of the session that
      is in memory, for the active installation. */
  lemma {:induction false} FireSendsMemory(s: State, events: seq<Event>)
    requires TimerOfTokens(s) && Run(s, events).timer.Some?
    ensures var s' := Run(s, events);
            && s'.tokens.Some?
            && Apply(s', Fire).refreshing ==
               s'.refreshing + multiset{Flight(s'.installation, s'.tokens.value.owner, s'.tokens.value.refreshToken, s'.now)}
            && Apply(s', Fire).tokens == s'.tokens && Apply(s', Fire).timer.None?
    decreases |events|
  {
    if events == [] {
      StepFlights(s, Fire);
    } else {
      StepTimer(s, events[0]);
      FireSendsMemory(Apply(s, events[0]), events[1..]);
    }
  }

  // ------------------------------------------------------------ runs that mix installations up

  // Where a refresh is answered here with another installation's token, its server accepts that token, as
  // installations behind one login service do. Separate servers are the subject of `NotLostIff` below.

  predicate NoLogin(e: Event) { !e.LoginOk? }

  /** A session that outlives the safety margin, whatever the bounds. */
  function LongAnswer(b: Bounds, now: int): Response { Response("a", "r", b.minLifetime + SAFETY_MARGIN + 1, now) }

  /** The answer of the only open refresh arms the timer for the active installation. */
  lemma AnswerArms(b: Bounds, s: State, f: Flight)
    requires s.refreshing == multiset{f}
    ensures var s' := Apply(s, RefreshOk(f, LongAnswer(b, s.now)));
            && s'.refreshing == multiset{} && s'.now == s.now && s'.installation == s.installation
            && s'.timer == Some(Timer(s.now + (b.minLifetime + 1) * 1000, s.installation, f.owner, "r"))
  {
    hide StorageKey;
  }

  /** The armed timer runs out and sends its refresh. */
  lemma TimerFires(b: Bounds, s: State) returns (events: seq<Event>)
    requires s.refreshing == multiset{} && s.timer.Some? && s.now <= s.timer.value.due
    ensures PossibleRun(b, s, events) && forall e :: e in events ==> NoLogin(e)
    ensures var due := s.timer.value.due;
            Run(s, events) == s.(now := due, timer := None,
                                 refreshing := multiset{Sent(s.timer.value, due)})
  {
    hide Run, PossibleRun;
    var e0, e1 := Tick(s.timer.value.due - s.now), Fire;
    NoEvents(b, s);
    Extend(b, s, [], e0);
    Extend(b, s, [] + [e0], e1);
    events := [] + [e0] + [e1];
    StepFlights(Run(s, [] + [e0]), e1);
  }

  /** The armed timer runs out and its refresh is answered: the session is stored where the timer says. */
  lemma TimerStores(b: Bounds, s: State) returns (events: seq<Event>)
    requires s.refreshing == multiset{} && s.timer.Some? && s.now <= s.timer.value.due
    ensures PossibleRun(b, s, events) && forall e :: e in events ==> NoLogin(e)
    ensures var s', timer := Run(s, events), s.timer.value;
            && s'.installation == s.installation
            && StoredSession(s', timer.captured).Some? && StoredSession(s', timer.captured).value.owner == timer.owner
  {
    hide Run, PossibleRun, StorageKey, Apply;
    var timer := s.timer.value;
    var answer := RefreshOk(Sent(timer, timer.due), LongAnswer(b, timer.due));
    var fired := TimerFires(b, s);
    Extend(b, s, fired, answer);
    StepStores(Run(s, fired), answer, timer.captured);
    StepMemory(Run(s, fired), answer);
    events := fired + [answer];
  }

  /** A refresh sent for another installation answers while `s.installation` is active: its session is taken
      into memory, refreshed when due, and that answer is stored for the active installation. */
  lemma TakenOver(b: Bounds, s: State, f: Flight) returns (events: seq<Event>)
    requires s.refreshing == multiset{f}
    ensures PossibleRun(b, s, events) && forall e :: e in events ==> NoLogin(e)
    ensures Run(s, events).installation == s.installation
    ensures StoredSession(Run(s, events), s.installation).Some?
    ensures StoredSession(Run(s, events), s.installation).value.owner == f.owner
  {
    var answer := RefreshOk(f, LongAnswer(b, s.now));
    AnswerArms(b, s, f);
    hide Run, PossibleRun, StoredSession;
    NoEvents(b, s);
    Extend(b, s, [], answer);
    hide Apply;
    var rest := TimerStores(b, Run(s, [] + [answer]));
    RunConcat(b, s, [] + [answer], rest);
    events := [] + [answer] + rest;
  }

  /** Refreshing a restored session of another installation, and switching back before the answer. */
  lemma SwitchedDuringRefresh(b: Bounds, s: State, other: string, id: string) returns (events: seq<Event>)
    requires other != id && StoredSession(s, other).Some? && s.now < StoredSession(s, other).value.expiresAt
    ensures PossibleRun(b, s, events) && forall e :: e in events ==> NoLogin(e)
    ensures var s', t := Run(s, events), StoredSession(s, other).value;
            && s'.installation == id && StoredSession(s', id) == StoredSession(s, id)
            && s'.refreshing == multiset{Flight(other, t.owner, t.refreshToken, s'.now)}
  {
    hide Run, PossibleRun, StoredSession, Apply;
    var e0, e1, e4, e5 := Reload(other), Restore, SwitchTo(id), Restore;
    var first := [] + [e0] + [e1];
    ReloadRestore(s, other);
    NoEvents(b, s);
    Extend(b, s, [], e0);
    Extend(b, s, [] + [e0], e1);
    var fired := TimerFires(b, Run(s, first));
    RunConcat(b, s, first, fired);
    Extend(b, s, first + fired, e4);
    Extend(b, s, first + fired + [e4], e5);
    events := first + fired + [e4] + [e5];
    var restored := Run(s, first);
    var sent := Run(s, first + fired);
    StepStores(sent, e4, id);
    StepFlights(sent, e4);
    StepMemory(sent, e4);
    StepStores(Apply(sent, e4), e5, id);
    StepFlights(Apply(sent, e4), e5);
    StepMemory(Apply(sent, e4), e5);
    SameStore(restored, sent, id);
    SameStore(s, restored, id);
  }

  lemma SameStore(s: State, s': State, id: string)
    ensures s.store == s'.store ==> StoredSession(s, id) == StoredSession(s', id)
  {
  }

  /** After a page reload a stored session that is not due is in memory, with its timer armed. */
  lemma ReloadRestore(s: State, id: string)
    requires StoredSession(s, id).Some? && s.now < StoredSession(s, id).value.expiresAt
    ensures var s', t := Apply(Apply(s, Reload(id)), Restore), StoredSession(s, id).value;
            && s'.store == s.store && s'.now == s.now && s'.refreshing == multiset{}
            && s'.timer == Some(Timer(t.expiresAt, id, t.owner, t.refreshToken))
  {
    hide StorageKey;
  }

  /** From every state in which another installation's session can still be restored, one possible run
      without any login stores that installation's session as the session of `id`. */
  lemma MixedUp(b: Bounds, s: State, other: string, id: string) returns (events: seq<Event>)
    requires other != id && StoredSession(s, other).Some? && s.now < StoredSession(s, other).value.expiresAt
    ensures PossibleRun(b, s, events) && forall e :: e in events ==> NoLogin(e)
    ensures StoredSession(Run(s, events), id).Some?
    ensures StoredSession(Run(s, events), id).value.owner == StoredSession(s, other).value.owner
  {
    hide Run, PossibleRun, StoredSession;
    var first := SwitchedDuringRefresh(b, s, other, id);
    var s' := Run(s, first);
    var t := StoredSession(s, other).value;
    var second := TakenOver(b, s', Flight(other, t.owner, t.refreshToken, s'.now));
    RunConcat(b, s, first, second);
    events := first + second;
  }

  /** Reachable from the start: one login, one switch during its refresh, and a session of the first
      installation is stored for the second. */
  lemma ForeignSessionStored(b: Bounds, now: int, a: string, id: string) returns (events: seq<Event>)
    requires a != id
    ensures var s := Start(now, a);
            && PossibleRun(b, s, events) && StoreOwned(s)
            && StoredSession(Run(s, events), id).Some? && StoredSession(Run(s, events), id).value.owner == a
            && !StoreOwned(Run(s, events))
  {
    var s, login := Start(now, a), LoginOk(a, LongAnswer(b, now));
    hide Run, PossibleRun, StorageKey;
    NoEvents(b, s);
    Extend(b, s, [], login);
    StepStores(s, login, a);
    var rest := MixedUp(b, Run(s, [] + [login]), a, id);
    RunConcat(b, s, [] + [login], rest);
    events := [] + [login] + rest;
    assert !StoreOwned(Run(s, events));
  }

  /** Reachable from the start: a session of another installation in memory, and not the stored one. */
  lemma ForeignSessionInMemory(b: Bounds, now: int, a: string, id: string) returns (events: seq<Event>)
    requires a != id
    ensures var s := Start(now, a);
            && PossibleRun(b, s, events) && OwnSession(s) && MemoryOwned(s)
            && Run(s, events).installation == id && !OwnSession(Run(s, events)) && !MemoryOwned(Run(s, events))
  {
    var s, login := Start(now, a), LoginOk(a, LongAnswer(b, now));
    hide Run, PossibleRun, StorageKey;
    NoEvents(b, s);
    Extend(b, s, [], login);
    StepStores(s, login, a);
    StepStores(s, login, id);
    var rest := SwitchedDuringRefresh(b, Run(s, [] + [login]), a, id);
    RunConcat(b, s, [] + [login], rest);
    var late := Run(s, [] + [login] + rest);
    var answer := RefreshOk(Flight(a, a, "r", late.now), LongAnswer(b, late.now));
    Extend(b, s, [] + [login] + rest, answer);
    StepStores(late, answer, id);
    events := [] + [login] + rest + [answer];
  }

  // ------------------------------------------------------------ logout

  /** No stored session would be taken up by a restore. */
  ghost predicate NothingRestorable(s: State) {
    forall id :: StoredSession(s, id).Some? ==> StoredSession(s, id).value.expiresAt <= s.now
  }

  /** Nobody is logged in and nothing under way could change that. */
  ghost predicate AllQuiet(s: State) {
    s.tokens.None? && s.timer.None? && s.refreshing == multiset{} && NothingRestorable(s)
  }

  lemma QuietStep(b: Bounds, s: State, e: Event, id: string)
    requires AllQuiet(s) && StoredSession(s, id).None? && Possible(b, s, e) && NoLogin(e)
    ensures AllQuiet(Apply(s, e)) && StoredSession(Apply(s, e), id).None?
  {
    forall other ensures StoredSession(Apply(s, e), other) == StoredSession(s, other) || StoredSession(Apply(s, e), other).None? {
      StepStores(s, e, other);
    }
    hide StorageKey;
    if e.Restore? {
      assert StoredSession(s, s.installation).Some? ==> StoredSession(s, s.installation).value.expiresAt <= s.now;
    }
  }

  lemma {:induction false} QuietRun(b: Bounds, s: State, events: seq<Event>, id: string)
    requires AllQuiet(s) && StoredSession(s, id).None? && PossibleRun(b, s, events)
    requires forall e :: e in events ==> NoLogin(e)
    ensures StoredSession(Run(s, events), id).None?
    decreases |events|
  {
    hide AllQuiet, StoredSession, Apply, Possible;
    if events != [] {
      assert NoLogin(events[0]) && forall e :: e in events[1..] ==> e in events;
      QuietStep(b, s, events[0], id);
      QuietRun(b, Apply(s, events[0]), events[1..], id);
    }
  }

  /** A refresh still under way, or a session that can be restored elsewhere, ends as a session of `id`. */
  lemma Revived(b: Bounds, s: State, id: string) returns (events: seq<Event>)
    requires s.refreshing != multiset{} || exists other :: other != id && StoredSession(s, other).Some?
                                                           && s.now < StoredSession(s, other).value.expiresAt
    ensures PossibleRun(b, s, events) && forall e :: e in events ==> NoLogin(e)
    ensures StoredSession(Run(s, events), id).Some?
  {
    hide Run, PossibleRun, StoredSession;
    if other :| other != id && StoredSession(s, other).Some? && s.now < StoredSession(s, other).value.expiresAt {
      events := MixedUp(b, s, other, id);
    } else {
      var f :| f in s.refreshing;
      var answer := RefreshOk(f, LongAnswer(b, s.now));
      NoEvents(b, s);
      Extend(b, s, [], answer);
      StepStores(s, answer, f.captured);
      events := [] + [answer];
      if f.captured != id {
        var rest := MixedUp(b, Run(s, events), f.captured, id);
        RunConcat(b, s, events, rest);
        events := events + rest;
      }
    }
  }

  /** Logout is final, no possible run without a login storing a session for the logged-out installation again,
      if and only if no refresh is under way and no other installation's session can be restored at that moment. */
  lemma LogoutFinalIff(b: Bounds, s: State)
    ensures var id, after := s.installation, Apply(s, Logout);
            (forall events :: PossibleRun(b, after, events) && (forall e :: e in events ==> NoLogin(e)) ==>
               StoredSession(Run(after, events), id).None?)
            <==> s.refreshing == multiset{} && NothingRestorable(after)
  {
    var id, after := s.installation, Apply(s, Logout);
    StepStores(s, Logout, id);
    hide StoredSession;
    assert after.tokens.None? && after.timer.None? && after.refreshing == s.refreshing;
    if s.refreshing == multiset{} && NothingRestorable(after) {
      forall events | PossibleRun(b, after, events) && (forall e :: e in events ==> NoLogin(e))
        ensures StoredSession(Run(after, events), id).None?
      {
        QuietRun(b, after, events, id);
      }
    } else {
      var events := Revived(b, after, id);
    }
  }

  /** A login elsewhere is enough as well: from every state some possible run without a login to `id` ends
      with a session stored for it. */
  lemma LoginElsewhere(b: Bounds, s: State, other: string, id: string) returns (events: seq<Event>)
    requires other != id
    ensures PossibleRun(b, s, events) && forall e :: e in events ==> !(e.LoginOk? && e.captured == id)
    ensures StoredSession(Run(s, events), id).Some? && StoredSession(Run(s, events), id).value.owner == other
  {
    hide Run, PossibleRun, StoredSession;
    var login := LoginOk(other, LongAnswer(b, s.now));
    NoEvents(b, s);
    Extend(b, s, [], login);
    StepStores(s, login, other);
    var rest := MixedUp(b, Run(s, [] + [login]), other, id);
    RunConcat(b, s, [] + [login], rest);
    assert forall e :: e in rest ==> NoLogin(e);
    events := [] + [login] + rest;
  }

  /** Reachable from the start: the user logs out while a refresh is under way, and its answer logs in again. */
  lemma LogoutUndone(b: Bounds, now: int, a: string) returns (events: seq<Event>, answer: Event)
    ensures var s := Start(now, a);
            && PossibleRun(b, s, events + [Logout] + [answer]) && answer.RefreshOk?
            && StoredSession(Run(s, events + [Logout]), a).None? && Run(s, events + [Logout]).tokens.None?
            && StoredSession(Run(s, events + [Logout] + [answer]), a).Some? && Run(s, events + [Logout] + [answer]).tokens.Some?
  {
    hide Run, PossibleRun, StorageKey;
    var s := Start(now, a);
    var login := LoginOk(a, LongAnswer(b, now));
    NoEvents(b, s);
    Extend(b, s, [], login);
    var fired := TimerFires(b, Apply(s, login));
    RunConcat(b, s, [] + [login], fired);
    events := [] + [login] + fired;
    var sent := Run(s, events);
    answer := RefreshOk(Flight(a, a, "r", sent.now), LongAnswer(b, sent.now));
    Extend(b, s, events, Logout);
    Extend(b, s, events + [Logout], answer);
    StepStores(sent, Logout, a);
    StepMemory(sent, Logout);
    StepStores(Apply(sent, Logout), answer, a);
    StepMemory(Apply(sent, Logout), answer);
  }

  // ------------------------------------------------------------ sessions lost to another installation's refresh

  /** Each server accepts the refresh tokens it issued and no others. */
  predicate Accepted(e: Event) { e.RefreshOk? ==> e.flight.captured == e.flight.owner }

  /** What may end or replace a session of `id` on its own account: logging out there, a profile that does not
      load, an answer to its own refresh. */
  predicate EndsOwn(s: State, e: Event, id: string) {
    match e
    case Logout => s.installation == id
    case ProfileFailed(captured) => captured == id
    case RefreshOk(f, _) => f.captured == f.owner == id
    case RefreshFailed(f) => f.captured == f.owner == id
    case _ => false
  }

  /** A run without logins and without anything that ends the session of `id` on its own account. */
  ghost predicate Elsewhere(s: State, events: seq<Event>, id: string)
    decreases |events|
  {
    events != [] ==>
      && NoLogin(events[0]) && Accepted(events[0]) && !EndsOwn(s, events[0], id)
      && Elsewhere(Apply(s, events[0]), events[1..], id)
  }

  /** What holds of every state that separate servers lead to: stored sessions are owned, the tokens in memory
      are stored, and the timer is theirs and not too early. */
  ghost predicate Consistent(s: State) {
    && StoreOwned(s) && TimerOfTokens(s)
    && (s.timer.Some? ==> s.tokens.value.expiresAt <= s.timer.value.due)
    && (s.tokens.Some? ==> StoredSession(s, s.tokens.value.owner) == s.tokens)
  }

  /** A step keeps the timer, ends it, or arms it for what is in memory then. */
  lemma StepArms(s: State, e: Event)
    ensures var s' := Apply(s, e);
            || s'.timer.None? || (s'.timer == s.timer && s'.tokens == s.tokens)
            || (s'.tokens.Some? && s'.timer.value.due == Max(s'.tokens.value.expiresAt, s'.now))
  {
    hide StorageKey, ToStored, Max;
  }

  lemma StepTimerDue(s: State, e: Event)
    requires TimerOfTokens(s) && (s.timer.Some? ==> s.tokens.value.expiresAt <= s.timer.value.due)
    ensures TimerOfTokens(Apply(s, e))
    ensures Apply(s, e).timer.Some? ==> Apply(s, e).tokens.value.expiresAt <= Apply(s, e).timer.value.due
  {
    StepTimer(s, e);
    StepArms(s, e);
    hide Apply;
  }

  lemma StepConsistent(s: State, e: Event)
    requires Consistent(s) && Accepted(e)
    ensures Consistent(Apply(s, e))
  {
    StepStoreOwned(s, e);
    StepTimerDue(s, e);
    StepMemory(s, e);
    hide Apply, StoredSession, StoreOwned, TimerOfTokens;
    var tokens := Apply(s, e).tokens;
    if tokens.Some? {
      StepStores(s, e, tokens.value.owner);
      if e.Restore? {
        StoredOwner(s, s.installation);
      }
      StoredByWriter(s, e);
    }
  }

  lemma StoredOwner(s: State, id: string)
    requires StoreOwned(s)
    ensures StoredSession(s, id).Some? ==> StoredSession(s, id).value.owner == id
  {
  }

  lemma StoredByWriter(s: State, e: Event)
    requires Accepted(e)
    ensures Apply(s, e).tokens.Some? ==>
              match e
              case RefreshOk(_, _) => Writer(s, e) == Some(Apply(s, e).tokens.value.owner)
              case LoginOk(_, _) => Writer(s, e) == Some(Apply(s, e).tokens.value.owner)
              case _ => Writer(s, e) == None
  {
    StepMemory(s, e);
    hide Apply;
  }

  lemma StartConsistent(now: int, installation: string)
    ensures Consistent(Start(now, installation))
  {
  }

  /** How long a refreshed session is not due, at least. */
  function Gap(b: Bounds): nat {
    if b.minLifetime < SAFETY_MARGIN then 0 else (b.minLifetime - SAFETY_MARGIN) * 1000
  }

  /** Nothing of another installation comes due before `due`: not the tokens in memory, no session that can be
      restored, no session an open refresh may bring; and no other installation's token is on its way for `id`. */
  ghost predicate Harmless(b: Bounds, s: State, id: string, due: int) {
    && (s.tokens.Some? && s.tokens.value.owner != id ==> due <= s.tokens.value.expiresAt)
    && (forall x :: x != id && StoredSession(s, x).Some? ==>
          StoredSession(s, x).value.expiresAt <= s.now || due <= StoredSession(s, x).value.expiresAt)
    && (forall f :: f in s.refreshing && f.owner != id ==>
          f.captured != id && (f.captured == f.owner ==> due <= s.now + Gap(b)))
  }

  lemma HarmlessFlight(b: Bounds, s: State, id: string, due: int, f: Flight)
    requires Harmless(b, s, id, due) && f in s.refreshing && f.owner != id
    ensures f.captured != id && (f.captured == f.owner ==> due <= s.now + Gap(b))
  {
  }

  lemma HarmlessStored(b: Bounds, s: State, id: string, due: int, x: string)
    requires Harmless(b, s, id, due) && x != id && StoredSession(s, x).Some?
    ensures StoredSession(s, x).value.expiresAt <= s.now || due <= StoredSession(s, x).value.expiresAt
  {
  }

  lemma HarmlessStores(b: Bounds, s: State, e: Event, id: string, due: int)
    requires Harmless(b, s, id, due) && Possible(b, s, e)
    requires NoLogin(e) && Accepted(e) && !EndsOwn(s, e, id)
    ensures StoredSession(Apply(s, e), id) == StoredSession(s, id)
    ensures s.now < due ==>
              forall x :: x != id && StoredSession(Apply(s, e), x).Some? ==>
                var t := StoredSession(Apply(s, e), x).value;
                t.expiresAt <= Apply(s, e).now || due <= t.expiresAt
  {
    StepFlights(s, e);
    hide Apply, StoredSession, Harmless;
    StepStores(s, e, id);
    if e.RefreshOk? || e.RefreshFailed? {
      if e.flight.owner != id {
        HarmlessFlight(b, s, id, due, e.flight);
      }
    }
    if s.now < due {
      forall x | x != id && StoredSession(Apply(s, e), x).Some?
        ensures var t := StoredSession(Apply(s, e), x).value; t.expiresAt <= Apply(s, e).now || due <= t.expiresAt
      {
        StepStores(s, e, x);
        if StoredSession(s, x).Some? {
          HarmlessStored(b, s, id, due, x);
        }
      }
    }
  }

  lemma HarmlessMemory(b: Bounds, s: State, e: Event, id: string, due: int)
    requires Consistent(s) && Harmless(b, s, id, due) && Possible(b, s, e) && s.now < due
    requires NoLogin(e) && Accepted(e) && !EndsOwn(s, e, id)
    ensures Apply(s, e).tokens.Some? && Apply(s, e).tokens.value.owner != id ==> due <= Apply(s, e).tokens.value.expiresAt
  {
    StepMemory(s, e);
    StoredOwner(s, s.installation);
    if e.Restore? && s.installation != id && StoredSession(s, s.installation).Some? {
      HarmlessStored(b, s, id, due, s.installation);
    } else if e.RefreshOk? && e.flight.owner != id {
      HarmlessFlight(b, s, id, due, e.flight);
    }
    hide Apply, StoredSession;
  }

  lemma HarmlessFlights(b: Bounds, s: State, e: Event, id: string, due: int, f: Flight)
    requires Consistent(s) && Harmless(b, s, id, due) && Possible(b, s, e) && s.now < due
    requires f in Apply(s, e).refreshing && f.owner != id
    ensures f.captured != id && (f.captured == f.owner ==> due <= Apply(s, e).now + Gap(b))
  {
    StepFlights(s, e);
    hide Apply, StoredSession;
    if f in s.refreshing {
      HarmlessFlight(b, s, id, due, f);
    }
  }

  lemma HarmlessStep(b: Bounds, s: State, e: Event, id: string, due: int)
    requires Consistent(s) && Harmless(b, s, id, due) && Possible(b, s, e) && s.now < due
    requires NoLogin(e) && Accepted(e) && !EndsOwn(s, e, id)
    ensures StoredSession(Apply(s, e), id) == StoredSession(s, id) && s.now <= Apply(s, e).now
    ensures Harmless(b, Apply(s, e), id, due)
  {
    HarmlessStores(b, s, e, id, due);
    HarmlessMemory(b, s, e, id, due);
    StepFlights(s, e);
    forall f | f in Apply(s, e).refreshing && f.owner != id
      ensures f.captured != id && (f.captured == f.owner ==> due <= Apply(s, e).now + Gap(b))
    {
      HarmlessFlights(b, s, e, id, due, f);
    }
    hide Apply, StoredSession, Consistent;
  }

  lemma {:induction false} TimePasses(s: State, events: seq<Event>)
    ensures s.now <= Run(s, events).now
    decreases |events|
  {
    if events != [] {
      StepFlights(s, events[0]);
      TimePasses(Apply(s, events[0]), events[1..]);
    }
  }

  lemma {:induction false} HarmlessRun(b: Bounds, s: State, events: seq<Event>, id: string, due: int)
    requires Consistent(s) && Harmless(b, s, id, due) && PossibleRun(b, s, events) && Elsewhere(s, events, id)
    requires Run(s, events).now < due
    ensures StoredSession(Run(s, events), id) == StoredSession(s, id)
    decreases |events|
  {
    hide Consistent, Harmless, StoredSession, Apply, Possible;
    TimePasses(s, events);
    if events != [] {
      HarmlessStep(b, s, events[0], id, due);
      StepConsistent(s, events[0]);
      HarmlessRun(b, Apply(s, events[0]), events[1..], id, due);
    }
  }

  /** An event that cannot end the session of `id` on its own account in any state. */
  predicate Aloof(e: Event, id: string) {
    && NoLogin(e) && Accepted(e) && e != Logout && e != ProfileFailed(id)
    && (e.RefreshOk? || e.RefreshFailed? ==> !(e.flight.captured == e.flight.owner == id))
  }

  lemma {:induction false} AloofRun(s: State, events: seq<Event>, id: string)
    requires forall e :: e in events ==> Aloof(e, id)
    ensures Elsewhere(s, events, id)
    decreases |events|
  {
    if events != [] {
      assert Aloof(events[0], id) && forall e :: e in events[1..] ==> e in events;
      AloofRun(Apply(s, events[0]), events[1..], id);
    }
  }

  /** Tokens of another installation that are due: switching to `id` sends them in its name, and the refusal
      deletes the session stored for `id`. */
  lemma LostAtOnce(b: Bounds, s: State, id: string) returns (events: seq<Event>)
    requires s.tokens.Some? && s.tokens.value.owner != id && s.tokens.value.expiresAt <= s.now
    ensures PossibleRun(b, s, events) && forall e :: e in events ==> Aloof(e, id)
    ensures Run(s, events).now == s.now && StoredSession(Run(s, events), id).None?
  {
    hide Run, PossibleRun, StoredSession, Apply;
    var f := Flight(id, s.tokens.value.owner, s.tokens.value.refreshToken, s.now);
    var e0, e1, e2, e3 := SwitchTo(id + "'"), SwitchTo(id), Fire, RefreshFailed(f);
    var armed := Apply(Apply(s, e0), e1);
    Rearmed(s, id);
    NoEvents(b, s);
    Extend(b, s, [], e0);
    Extend(b, s, [] + [e0], e1);
    Extend(b, s, [] + [e0] + [e1], e2);
    StepFlights(armed, e2);
    var sent := Apply(armed, e2);
    assert f in sent.refreshing;
    Extend(b, s, [] + [e0] + [e1] + [e2], e3);
    StepStores(sent, e3, id);
    StepFlights(sent, e3);
    events := [] + [e0] + [e1] + [e2] + [e3];
  }

  lemma Rearmed(s: State, id: string)
    requires s.tokens.Some? && s.tokens.value.expiresAt <= s.now
    ensures var s' := Apply(Apply(s, SwitchTo(id + "'")), SwitchTo(id));
            s'.now == s.now && s'.timer == Some(Timer(s.now, id, s.tokens.value.owner, s.tokens.value.refreshToken))
  {
    assert |id + "'"| != |id|;
  }

  /** The same with another installation's stored session, at the time it comes due. */
  lemma LostWhenDue(b: Bounds, s: State, x: string, id: string) returns (events: seq<Event>)
    requires StoreOwned(s) && x != id && StoredSession(s, x).Some? && s.now < StoredSession(s, x).value.expiresAt
    ensures PossibleRun(b, s, events) && forall e :: e in events ==> Aloof(e, id)
    ensures Run(s, events).now == StoredSession(s, x).value.expiresAt && StoredSession(Run(s, events), id).None?
  {
    hide Run, PossibleRun, StoredSession;
    var t := StoredSession(s, x).value;
    StoredOwner(s, x);
    ReloadRestore(s, x);
    RestoredTokens(s, x);
    var e0, e1, e2 := Reload(x), Restore, Tick(t.expiresAt - s.now);
    NoEvents(b, s);
    Extend(b, s, [], e0);
    Extend(b, s, [] + [e0], e1);
    var restored := Run(s, [] + [e0] + [e1]);
    Extend(b, s, [] + [e0] + [e1], e2);
    StepMemory(restored, e2);
    StepFlights(restored, e2);
    hide Apply;
    var first := [] + [e0] + [e1] + [e2];
    var rest := LostAtOnce(b, Run(s, first), id);
    RunConcat(b, s, first, rest);
    events := first + rest;
  }

  lemma RestoredTokens(s: State, id: string)
    requires StoredSession(s, id).Some? && s.now < StoredSession(s, id).value.expiresAt
    ensures Apply(Apply(s, Reload(id)), Restore).tokens == StoredSession(s, id)
  {
    hide StorageKey;
  }

  /** Whatever is not harmless loses the session of `id` before it is due. */
  lemma LostBeforeDue(b: Bounds, s: State, id: string, due: int) returns (events: seq<Event>)
    requires Consistent(s) && !Harmless(b, s, id, due) && s.now < due
    ensures PossibleRun(b, s, events) && forall e :: e in events ==> Aloof(e, id)
    ensures Run(s, events).now < due && StoredSession(Run(s, events), id).None?
  {
    hide Run, PossibleRun, StoredSession, StoreOwned, Aloof;
    if x :| x != id && StoredSession(s, x).Some? && s.now < StoredSession(s, x).value.expiresAt < due {
      events := LostWhenDue(b, s, x, id);
    } else if s.tokens.Some? && s.tokens.value.owner != id && s.tokens.value.expiresAt <= s.now {
      events := LostAtOnce(b, s, id);
    } else if f :| f in s.refreshing && f.owner != id == f.captured {
      events := LostByFailure(b, s, f);
    } else {
      var f := LateAnswer(b, s, id, due);
      var answer := RefreshOk(f, Response("a", "r", b.minLifetime, s.now));
      AnswerIsAloof(b, s, f, id);
      NoEvents(b, s);
      Extend(b, s, [], answer);
      hide Apply, Harmless, Consistent;
      var rest := LostAfterAnswer(b, s, f, id);
      RunConcat(b, s, [] + [answer], rest);
      events := [] + [answer] + rest;
    }
  }

  lemma AnswerIsAloof(b: Bounds, s: State, f: Flight, id: string)
    requires f.captured == f.owner != id
    ensures Aloof(RefreshOk(f, Response("a", "r", b.minLifetime, s.now)), id)
  {
  }

  /** If nothing due or restorable is harmful, an open refresh of another installation is. */
  lemma LateAnswer(b: Bounds, s: State, id: string, due: int) returns (f: Flight)
    requires Consistent(s) && !Harmless(b, s, id, due) && s.now < due
    requires forall x :: x != id && StoredSession(s, x).Some? ==> !(s.now < StoredSession(s, x).value.expiresAt < due)
    requires !(s.tokens.Some? && s.tokens.value.owner != id && s.tokens.value.expiresAt <= s.now)
    requires forall f :: f in s.refreshing && f.owner != id ==> f.captured != id
    ensures f in s.refreshing && f.owner == f.captured != id && s.now + Gap(b) < due
  {
    hide StoredSession, StoreOwned;
    f :| f in s.refreshing && f.owner == f.captured != id && s.now + Gap(b) < due;
  }

  lemma LostByFailure(b: Bounds, s: State, f: Flight) returns (events: seq<Event>)
    requires f in s.refreshing && f.owner != f.captured
    ensures PossibleRun(b, s, events) && forall e :: e in events ==> Aloof(e, f.captured)
    ensures Run(s, events).now == s.now && StoredSession(Run(s, events), f.captured).None?
  {
    hide Run, PossibleRun, StoredSession, Apply;
    NoEvents(b, s);
    Extend(b, s, [], RefreshFailed(f));
    StepStores(s, RefreshFailed(f), f.captured);
    StepFlights(s, RefreshFailed(f));
    events := [] + [RefreshFailed(f)];
  }

  lemma LostAfterAnswer(b: Bounds, s: State, f: Flight, id: string) returns (events: seq<Event>)
    requires StoreOwned(s) && f.captured == f.owner != id
    ensures var s' := Apply(s, RefreshOk(f, Response("a", "r", b.minLifetime, s.now)));
            && PossibleRun(b, s', events) && (forall e :: e in events ==> Aloof(e, id))
            && Run(s', events).now == s.now + Gap(b) && StoredSession(Run(s', events), id).None?
  {
    hide Run, PossibleRun, StoredSession, StoreOwned;
    var answer := RefreshOk(f, Response("a", "r", b.minLifetime, s.now));
    StepStoreOwned(s, answer);
    StepStores(s, answer, f.captured);
    StepMemory(s, answer);
    StepFlights(s, answer);
    hide Apply;
    var s' := Apply(s, answer);
    if b.minLifetime > SAFETY_MARGIN {
      events := LostWhenDue(b, s', f.captured, id);
    } else {
      events := LostAtOnce(b, s', id);
    }
  }

  /** Where each server accepts only its own refresh tokens: a session that is not due survives every run without
      logins in which nothing ends it on its own account, if and only if nothing of another installation can come
      due before it. */
  lemma NotLostIff(b: Bounds, s: State, id: string)
    requires Consistent(s) && StoredSession(s, id).Some? && s.now < StoredSession(s, id).value.expiresAt
    ensures var due := StoredSession(s, id).value.expiresAt;
            (forall events :: PossibleRun(b, s, events) && Elsewhere(s, events, id) && Run(s, events).now < due ==>
               StoredSession(Run(s, events), id) == StoredSession(s, id))
            <==> Harmless(b, s, id, due)
  {
    hide Consistent, Harmless, StoredSession;
    var due := StoredSession(s, id).value.expiresAt;
    if Harmless(b, s, id, due) {
      forall events | PossibleRun(b, s, events) && Elsewhere(s, events, id) && Run(s, events).now < due
        ensures StoredSession(Run(s, events), id) == StoredSession(s, id)
      {
        HarmlessRun(b, s, events, id, due);
      }
    } else {
      var events := LostBeforeDue(b, s, id, due);
      AloofRun(s, events, id);
    }
  }

  /** Reachable from the start: after a login to each of two installations, switching between them loses the
      second session before it is due. */
  lemma SessionLost(b: Bounds, now: int, a: string, id: string) returns (logins: seq<Event>, events: seq<Event>)
    requires a != id
    ensures var s := Run(Start(now, a), logins);
            && PossibleRun(b, Start(now, a), logins) && PossibleRun(b, s, events) && Elsewhere(s, events, id)
            && StoredSession(s, id).Some? && Run(s, events).now < StoredSession(s, id).value.expiresAt
            && StoredSession(Run(s, events), id).None?
  {
    var start, e0, e1 := Start(now, a), LoginOk(a, LongAnswer(b, now)), SwitchTo(id);
    var e2 := LoginOk(id, Response("a", "r", b.minLifetime + SAFETY_MARGIN + 2, now));
    hide Run, PossibleRun, StoredSession, Consistent, Apply;
    NoEvents(b, start);
    Extend(b, start, [], e0);
    StepFlights(start, e0);
    Extend(b, start, [] + [e0], e1);
    StepFlights(Apply(start, e0), e1);
    Extend(b, start, [] + [e0] + [e1], e2);
    logins := [] + [e0] + [e1] + [e2];
    var s, due := Run(start, logins), now + (b.minLifetime + 2) * 1000;
    TwoLogins(b, now, a, id);
    HarmfulStored(b, s, id, due, a);
    events := LostBeforeDue(b, s, id, due);
    AloofRun(s, events, id);
  }

  /** After a login to each of two installations, the second for a little longer. */
  lemma TwoLogins(b: Bounds, now: int, a: string, id: string)
    requires a != id
    ensures var s := Apply(Apply(Apply(Start(now, a), LoginOk(a, LongAnswer(b, now))), SwitchTo(id)),
                           LoginOk(id, Response("a", "r", b.minLifetime + SAFETY_MARGIN + 2, now)));
            && Consistent(s) && s.now == now
            && StoredSession(s, a).Some? && StoredSession(s, a).value.expiresAt == now + (b.minLifetime + 1) * 1000
            && StoredSession(s, id).Some? && StoredSession(s, id).value.expiresAt == now + (b.minLifetime + 2) * 1000
  {
    var start, e0, e1 := Start(now, a), LoginOk(a, LongAnswer(b, now)), SwitchTo(id);
    var e2 := LoginOk(id, Response("a", "r", b.minLifetime + SAFETY_MARGIN + 2, now));
    StartConsistent(now, a);
    hide StoredSession, Consistent, Apply;
    var s1 := Apply(start, e0);
    var s2 := Apply(s1, e1);
    StepConsistent(start, e0);
    StepConsistent(s1, e1);
    StepConsistent(s2, e2);
    StepStores(start, e0, a);
    StepStores(s1, e1, a);
    StepStores(s2, e2, a);
    StepStores(s2, e2, id);
    StepFlights(start, e0);
    StepFlights(s1, e1);
    StepFlights(s2, e2);
  }

  lemma HarmfulStored(b: Bounds, s: State, id: string, due: int, x: string)
    requires x != id && StoredSession(s, x).Some? && s.now < StoredSession(s, x).value.expiresAt < due
    ensures !Harmless(b, s, id, due)
  {
  }

  // ------------------------------------------------------------ the component

  class AuthProvider {
    var store: map<string, Session>
    var installation: string
    var tokens: Option<Session>
    var timer: Option<Timer>

    /** The state at time `now`, with what is under way outside the component. */
    function Value(now: int, refreshing: multiset<Flight>, profiles: multiset<string>): State
      reads this
    {
      State(now, store, installation, tokens, timer, refreshing, profiles)
    }

    /** The timer effect: the cleanup of the previous run, then a new timer if there are tokens. */
    method TimerEffect(now: int)
      modifies this`timer
      ensures forall r, p :: Value(now, r, p) == Armed(old(Value(now, r, p)))
    {
      timer := None;
      if tokens.Some? {
        var delay := Max(tokens.value.expiresAt - now, 0);
        timer := Some(Timer(now + delay, installation, tokens.value.owner, tokens.value.refreshToken));
      }
    }

    method ClearSession(captured: string, now: int)
      modifies this
      ensures forall r, p :: Value(now, r, p) == Cleared(old(Value(now, r, p)), captured)
    {
      timer := None;
      tokens := None;
      store := store - {StorageKey(captured)};
      TimerEffect(now);
    }

    /** `owner` is the installation whose password or refresh token was answered. */
    method ApplySession(captured: string, owner: string, response: Response, now: int)
      modifies this
      ensures forall r, p :: Value(now, r, p) == Applied(old(Value(now, r, p)), captured, owner, response)
    {
      var stored := ToStored(response, now, owner);
      store := store[StorageKey(captured) := stored];
      tokens := Some(stored);
      TimerEffect(now);
    }

    /** The restore effect; tells whether a profile load was started. */
    method RestoreEffect(now: int) returns (loads: bool)
      modifies this
      ensures forall r, p :: Value(now, r, if loads then p + multiset{installation} else p) == Restored(old(Value(now, r, p)))
    {
      var key := StorageKey(installation);
      if key !in store || store[key].expiresAt <= now {
        tokens := None;
        loads := false;
      } else {
        tokens := Some(store[key]);
        loads := true;
      }
      TimerEffect(now);
    }

    /** A new active installation: the callbacks change, so the timer effect runs again. */
    method InstallationChanged(id: string, now: int)
      modifies this
      ensures forall r, p :: Value(now, r, p) == Apply(old(Value(now, r, p)), SwitchTo(id))
    {
      if id != installation {
        installation := id;
        TimerEffect(now);
      }
    }
  }
}
