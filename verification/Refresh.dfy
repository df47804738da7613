// Token refresh under concurrency, as a transition system.
module Refresh {
  // Threads inside several processes, one thread lock per process, one configuration file
  // shared by all of them, and logins and logouts at any moment. Every section that runs
  // under the configuration lock is one atomic step; the exchange with the identity provider
  // runs under the thread lock only.
  import opened Common

  type Token = int

  type Thread = int

  type Process = int

  // The stored "auth" section.  A missing, empty or ill-typed token is None.
  datatype Auth = Auth(access: Option<Token>, refresh: Option<Token>)

  datatype Outcome = Returned(token: Token) | Failed

  // Where a thread stands in with_token_refresh and refresh_access_token.
  datatype Pc =
    | Idle
    | Requesting(token: Token)
    | Waiting(stale: Option<Token>)
    | Electing(stale: Option<Token>)
    | Exchanging(stale: Option<Token>, captured: Token)
    | Committing(stale: Option<Token>, captured: Token, minted: Token, rotated: Option<Token>)
    | Done(outcome: Outcome)

  datatype State = State(
    auth: Option<Auth>,
    holder: map<Process, Thread>,
    threads: map<Thread, Pc>,
    home: map<Thread, Process>,
    issued: set<Token>)

  datatype Action =
    | Login(access: Token, newRefresh: Option<Token>)
    | Logout
    | Load(t: Thread)
    | Accepted(t: Thread)
    | Unauthorized(t: Thread)
    | CallBare(t: Thread)
    | Acquire(t: Thread)
    | AcquireTimeout(t: Thread)
    | Elect(t: Thread)
    | ElectTimeout(t: Thread)
    | Exchange(t: Thread, minted: Token, rotated: Option<Token>)
    | ExchangeFails(t: Thread)
    | Commit(t: Thread)
    | CommitTimeout(t: Thread)
    | Crash(p: Process)

  function PcOf(s: State, t: Thread): Pc {
    if t in s.threads then s.threads[t] else Idle
  }

  function HomeOf(s: State, t: Thread): Process {
    if t in s.home then s.home[t] else 0
  }

  function StoredRefresh(auth: Option<Auth>): Option<Token> {
    if auth.Some? then auth.value.refresh else None
  }

  function StoredAccess(auth: Option<Auth>): Option<Token> {
    if auth.Some? then auth.value.access else None
  }

  // What the election section decides, reading the stored section only.
  function ElectSection(auth: Option<Auth>, stale: Option<Token>): Pc {
    var stored := StoredAccess(auth);
    if stale.Some? && stored.Some? && stored != stale then
      Done(Returned(stored.value))
    else if StoredRefresh(auth).None? then
      Done(Failed)
    else
      Exchanging(stale, StoredRefresh(auth).value)
  }

  // The commit section: the section it leaves behind and how the call ends.
  function CommitSection(auth: Option<Auth>, captured: Token, minted: Token, rotated: Option<Token>)
    : (Option<Auth>, Outcome)
  {
    if StoredRefresh(auth) != Some(captured) then
      (auth, if StoredAccess(auth).Some? then Returned(StoredAccess(auth).value) else Failed)
    else
      (Some(Auth(Some(minted), if rotated.Some? then rotated else Some(captured))), Returned(minted))
  }

  predicate Resting(pc: Pc) {
    pc.Idle? || pc.Done?
  }

  // Between taking the thread lock and giving it back.
  predicate Critical(pc: Pc) {
    pc.Electing? || pc.Exchanging? || pc.Committing?
  }

  function Optional(o: Option<Token>): set<Token> {
    if o.Some? then {o.value} else {}
  }

  function Stored(auth: Option<Auth>): set<Token> {
    Optional(StoredAccess(auth)) + Optional(StoredRefresh(auth))
  }

  // The provider never hands out a token twice.
  predicate Fresh(s: State, first: Token, second: Option<Token>) {
    first !in s.issued && Optional(second) !! s.issued
  }

  predicate Enabled(s: State, a: Action) {
    match a
    case Login(access, newRefresh) => Fresh(s, access, newRefresh)
    case Logout => true
    case Load(t) => t in s.home && Resting(PcOf(s, t))
    case Accepted(t) => PcOf(s, t).Requesting?
    case Unauthorized(t) => PcOf(s, t).Requesting?
    case CallBare(t) => t in s.home && Resting(PcOf(s, t))
    case Acquire(t) => PcOf(s, t).Waiting? && HomeOf(s, t) !in s.holder
    case AcquireTimeout(t) => PcOf(s, t).Waiting?
    case Elect(t) => PcOf(s, t).Electing?
    case ElectTimeout(t) => PcOf(s, t).Electing?
    case Exchange(t, minted, rotated) => PcOf(s, t).Exchanging? && Fresh(s, minted, rotated)
    case ExchangeFails(t) => PcOf(s, t).Exchanging?
    case Commit(t) => PcOf(s, t).Committing?
    case CommitTimeout(t) => PcOf(s, t).Committing?
    case Crash(p) => true
  }

  // Every exit path runs the `finally` that gives the thread lock back.
  function Leave(s: State, t: Thread, pc: Pc): State {
    if Critical(pc) then s.(threads := s.threads[t := pc])
    else s.(threads := s.threads[t := pc], holder := s.holder - {HomeOf(s, t)})
  }

  function Stay(s: State, t: Thread, pc: Pc): State {
    s.(threads := s.threads[t := pc])
  }

  function Next(s: State, a: Action): State
    requires Enabled(s, a)
  {
    match a
    case Login(access, newRefresh) =>
      s.(auth := Some(Auth(Some(access), newRefresh)), issued := s.issued + {access} + Optional(newRefresh))
    case Logout => s.(auth := None)
    case Load(t) =>
      Stay(s, t, if StoredAccess(s.auth).Some? then Requesting(StoredAccess(s.auth).value) else Done(Failed))
    case Accepted(t) => Stay(s, t, Idle)
    case Unauthorized(t) => Stay(s, t, Waiting(Some(PcOf(s, t).token)))
    case CallBare(t) => Stay(s, t, Waiting(None))
    case Acquire(t) => Stay(s, t, Electing(PcOf(s, t).stale)).(holder := s.holder[HomeOf(s, t) := t])
    case AcquireTimeout(t) => Stay(s, t, Done(Failed))
    case Elect(t) => Leave(s, t, ElectSection(s.auth, PcOf(s, t).stale))
    case ElectTimeout(t) => Leave(s, t, Done(Failed))
    case Exchange(t, minted, rotated) =>
      var pc := PcOf(s, t);
      Stay(s, t, Committing(pc.stale, pc.captured, minted, rotated))
        .(issued := s.issued + {minted} + Optional(rotated))
    case ExchangeFails(t) => Leave(s, t, Done(Failed))
    case Commit(t) =>
      var pc := PcOf(s, t);
      var (auth, outcome) := CommitSection(s.auth, pc.captured, pc.minted, pc.rotated);
      Leave(s, t, Done(outcome)).(auth := auth)
    case CommitTimeout(t) => Leave(s, t, Done(Failed))
    case Crash(p) =>
      s.(holder := s.holder - {p},
         threads := map t | t in s.threads :: if HomeOf(s, t) == p then Idle else s.threads[t])
  }

  // ---- Runs ------------------------------------------------------------------

  // Nobody is inside a call and no token of the future has been handed out yet.
  ghost predicate Init(s: State) {
    && s.holder == map[]
    && (forall t :: PcOf(s, t) == Idle)
    && Stored(s.auth) <= s.issued
  }

  datatype Run = Run(states: seq<State>, actions: seq<Action>)

  ghost predicate StepAt(run: Run, k: nat)
    requires |run.states| == |run.actions| + 1
    requires k < |run.actions|
  {
    Enabled(run.states[k], run.actions[k]) && run.states[k + 1] == Next(run.states[k], run.actions[k])
  }

  ghost predicate IsRun(run: Run) {
    && |run.states| == |run.actions| + 1
    && Init(run.states[0])
    && (forall k :: 0 <= k < |run.actions| ==> StepAt(run, k))
  }

  // The step is a commit that writes.
  predicate Writes(s: State, a: Action) {
    a.Commit? && PcOf(s, a.t).Committing? && StoredRefresh(s.auth) == Some(PcOf(s, a.t).captured)
  }

  // ---- The invariant -----------------------------------------------------------

  // The thread lock of a process is held by exactly the thread that is inside it.
  ghost predicate LockInv(s: State) {
    forall t :: Critical(PcOf(s, t)) <==> (HomeOf(s, t) in s.holder && s.holder[HomeOf(s, t)] == t)
  }

  // Tokens a thread once read from the stored section.
  function Known(pc: Pc): set<Token> {
    match pc
    case Idle => {}
    case Requesting(token) => {token}
    case Waiting(stale) => Optional(stale)
    case Electing(stale) => Optional(stale)
    case Exchanging(stale, captured) => Optional(stale) + {captured}
    case Committing(stale, captured, _, _) => Optional(stale) + {captured}
    case Done(_) => {}
  }

  // Minted but not yet stored tokens of a thread.
  function Minted(pc: Pc): set<Token> {
    if pc.Committing? then {pc.minted} + Optional(pc.rotated) else {}
  }

  function Carried(pc: Pc): set<Token> {
    Known(pc) + Minted(pc)
  }

  ghost predicate KnownInv(s: State) {
    && Stored(s.auth) <= s.issued
    && (forall t :: Carried(PcOf(s, t)) <= s.issued)
  }

  ghost predicate Apart(s: State, t: Thread, u: Thread) {
    Minted(PcOf(s, t)) !! Known(PcOf(s, u)) && (t != u ==> Minted(PcOf(s, t)) !! Minted(PcOf(s, u)))
  }

  // A minted token that waits for its commit is nowhere else: not stored, not read by
  // anybody, not minted for anybody else.
  ghost predicate MintedInv(s: State) {
    && (forall t :: Minted(PcOf(s, t)) !! Stored(s.auth))
    && (forall t, u :: Apart(s, t, u))
  }

  ghost predicate Inv(s: State) {
    LockInv(s) && KnownInv(s) && MintedInv(s)
  }

  lemma {:induction false} InitInv(s: State)
    requires Init(s)
    ensures Inv(s)
  {
    forall t ensures PcOf(s, t) == Idle {}
    forall t, u ensures Apart(s, t, u) {
      assert PcOf(s, t) == Idle;
    }
  }

  // The only thread whose place a step changes, a crash apart.
  function Actor(a: Action): Option<Thread> {
    match a
    case Login(_, _) => None
    case Logout => None
    case Load(t) => Some(t)
    case Accepted(t) => Some(t)
    case Unauthorized(t) => Some(t)
    case CallBare(t) => Some(t)
    case Acquire(t) => Some(t)
    case AcquireTimeout(t) => Some(t)
    case Elect(t) => Some(t)
    case ElectTimeout(t) => Some(t)
    case Exchange(t, _, _) => Some(t)
    case ExchangeFails(t) => Some(t)
    case Commit(t) => Some(t)
    case CommitTimeout(t) => Some(t)
    case Crash(_) => None
  }

  // A bystander keeps its place, or is thrown out by a crash.
  lemma {:induction false} Bystander(s: State, a: Action, t: Thread)
    requires Enabled(s, a)
    requires Actor(a) != Some(t)
    ensures PcOf(Next(s, a), t) == PcOf(s, t) || (a.Crash? && PcOf(Next(s, a), t) == Idle)
    ensures a.Crash? ==> PcOf(Next(s, a), t) == if HomeOf(s, t) == a.p then Idle else PcOf(s, t)
    ensures Next(s, a).home == s.home
  {
  }

  lemma {:induction false} LockKeptFor(s: State, a: Action, t: Thread)
    requires LockInv(s) && Enabled(s, a)
    ensures var s' := Next(s, a);
      Critical(PcOf(s', t)) <==> (HomeOf(s', t) in s'.holder && s'.holder[HomeOf(s', t)] == t)
  {
    hide ElectSection, CommitSection;
    assert Critical(PcOf(s, t)) <==> (HomeOf(s, t) in s.holder && s.holder[HomeOf(s, t)] == t);
    if Actor(a) != Some(t) { Bystander(s, a, t); }
    if Actor(a).Some? {
      var u := Actor(a).value;
      assert Critical(PcOf(s, u)) <==> (HomeOf(s, u) in s.holder && s.holder[HomeOf(s, u)] == u);
    }
  }

  lemma {:induction false} LockKept(s: State, a: Action)
    requires LockInv(s) && Enabled(s, a)
    ensures LockInv(Next(s, a))
  {
    var s' := Next(s, a);
    forall t ensures Critical(PcOf(s', t)) <==> (HomeOf(s', t) in s'.holder && s'.holder[HomeOf(s', t)] == t) {
      LockKeptFor(s, a, t);
    }
  }

  lemma {:induction false} IssuedFrom(s: State, a: Action)
    requires Enabled(s, a)
    ensures s.issued <= Next(s, a).issued
    ensures a.Login? ==> {a.access} + Optional(a.newRefresh) <= Next(s, a).issued
    ensures a.Exchange? ==> {a.minted} + Optional(a.rotated) <= Next(s, a).issued
  {
  }

  // Where the minted tokens of a thread come from.
  lemma {:induction false} MintedFrom(s: State, a: Action, t: Thread)
    requires Enabled(s, a)
    ensures a.Exchange? && a.t == t ==> Minted(PcOf(Next(s, a), t)) == {a.minted} + Optional(a.rotated)
    ensures !(a.Exchange? && a.t == t) ==> Minted(PcOf(Next(s, a), t)) <= Minted(PcOf(s, t))
    ensures a.Commit? && a.t == t ==> Minted(PcOf(Next(s, a), t)) == {}
  {
    if Actor(a) != Some(t) { Bystander(s, a, t); }
  }

  // Where the tokens a thread has read come from.
  lemma {:induction false} KnownFrom(s: State, a: Action, t: Thread)
    requires Enabled(s, a)
    ensures Known(PcOf(Next(s, a), t)) <= Known(PcOf(s, t)) + Stored(s.auth)
    ensures !(a.Load? || a.Elect?) ==> Known(PcOf(Next(s, a), t)) <= Known(PcOf(s, t))
  {
    if Actor(a) != Some(t) { Bystander(s, a, t); }
  }

  // Where the stored tokens come from.
  lemma {:induction false} StoredFrom(s: State, a: Action)
    requires Enabled(s, a)
    ensures a.Login? ==> Stored(Next(s, a).auth) == {a.access} + Optional(a.newRefresh)
    ensures a.Commit? ==> Stored(Next(s, a).auth) <= Stored(s.auth) + Minted(PcOf(s, a.t))
    ensures !a.Login? && !a.Commit? ==> Stored(Next(s, a).auth) <= Stored(s.auth)
  {
  }

  lemma {:induction false} KnownKept(s: State, a: Action)
    requires KnownInv(s) && Enabled(s, a)
    ensures KnownInv(Next(s, a))
  {
    StoredFrom(s, a);
    IssuedFrom(s, a);
    if Actor(a).Some? { assert Carried(PcOf(s, Actor(a).value)) <= s.issued; }
    forall t ensures Carried(PcOf(Next(s, a), t)) <= Next(s, a).issued {
      assert Carried(PcOf(s, t)) <= s.issued;
      MintedFrom(s, a, t);
      KnownFrom(s, a, t);
    }
    hide Next;
  }

  lemma {:induction false} MintedUnstored(s: State, a: Action, t: Thread)
    requires KnownInv(s) && MintedInv(s) && Enabled(s, a)
    ensures Minted(PcOf(Next(s, a), t)) !! Stored(Next(s, a).auth)
  {
    MintedFrom(s, a, t);
    StoredFrom(s, a);
    assert Minted(PcOf(s, t)) !! Stored(s.auth);
    assert Carried(PcOf(s, t)) <= s.issued;
    if a.Commit? { assert Apart(s, a.t, t); }
    hide Next;
  }

  lemma {:induction false} MintedApart(s: State, a: Action, t: Thread, u: Thread)
    requires KnownInv(s) && MintedInv(s) && Enabled(s, a)
    ensures Apart(Next(s, a), t, u)
  {
    MintedFrom(s, a, t);
    MintedFrom(s, a, u);
    KnownFrom(s, a, u);
    assert Apart(s, t, u);
    assert Minted(PcOf(s, t)) !! Stored(s.auth);
    assert Carried(PcOf(s, t)) <= s.issued && Carried(PcOf(s, u)) <= s.issued;
    hide Next;
  }

  lemma {:induction false} MintedKept(s: State, a: Action)
    requires KnownInv(s) && MintedInv(s) && Enabled(s, a)
    ensures MintedInv(Next(s, a))
  {
    forall t ensures Minted(PcOf(Next(s, a), t)) !! Stored(Next(s, a).auth) { MintedUnstored(s, a, t); }
    forall t, u ensures Apart(Next(s, a), t, u) { MintedApart(s, a, t, u); }
  }

  // ---- Whole runs ----------------------------------------------------------------

  lemma {:induction false} InvAlong(run: Run, k: nat)
    requires IsRun(run) && k <= |run.actions|
    ensures Inv(run.states[k])
  {
    if k == 0 {
      InitInv(run.states[0]);
    } else {
      InvAlong(run, k - 1);
      assert StepAt(run, k - 1);
      LockKept(run.states[k - 1], run.actions[k - 1]);
      KnownKept(run.states[k - 1], run.actions[k - 1]);
      MintedKept(run.states[k - 1], run.actions[k - 1]);
    }
  }

  // At most one thread of a process is between election and commit, so a process has at
  // most one exchange in flight; a thread outside holds no lock, however it got out.
  lemma {:induction false} SingleFlight(run: Run, k: nat, t: Thread, u: Thread)
    requires IsRun(run) && k <= |run.actions|
    ensures var s := run.states[k];
      Critical(PcOf(s, t)) && Critical(PcOf(s, u)) && HomeOf(s, t) == HomeOf(s, u) ==> t == u
    ensures var s := run.states[k];
      !Critical(PcOf(s, t)) ==> HomeOf(s, t) !in s.holder || s.holder[HomeOf(s, t)] != t
  {
    InvAlong(run, k);
    var s := run.states[k];
    assert Critical(PcOf(s, t)) <==> (HomeOf(s, t) in s.holder && s.holder[HomeOf(s, t)] == t);
    assert Critical(PcOf(s, u)) <==> (HomeOf(s, u) in s.holder && s.holder[HomeOf(s, u)] == u);
  }

  // The stored section changes only at a login, a logout, or a commit that finds the
  // refresh token it exchanged; every other exit leaves it as it was.
  lemma {:induction false} OnlyWritersWrite(s: State, a: Action)
    requires Enabled(s, a) && Next(s, a).auth != s.auth
    ensures a.Login? || a.Logout? || Writes(s, a)
  {
  }

  // A commit that finds the refresh token it exchanged stores the minted access token, keeps
  // the refresh token unless the provider rotated it, and returns what it stored; any other
  // commit stores nothing and answers with the access token it finds.
  lemma {:induction false} CommitOutcome(s: State, a: Action)
    requires Enabled(s, a) && a.Commit?
    ensures var pc, after := PcOf(s, a.t), Next(s, a);
      if s.auth.Some? && s.auth.value.refresh == Some(pc.captured) then
        && after.auth.Some? && after.auth.value.access == Some(pc.minted)
        && (pc.rotated.Some? ==> after.auth.value.refresh == pc.rotated)
        && (pc.rotated.None? ==> after.auth.value.refresh == s.auth.value.refresh)
        && PcOf(after, a.t) == Done(Returned(pc.minted))
      else
        && after.auth == s.auth
        && (s.auth.Some? && s.auth.value.access.Some? ==> PcOf(after, a.t) == Done(Returned(s.auth.value.access.value)))
        && (s.auth.None? || s.auth.value.access.None? ==> PcOf(after, a.t) == Done(Failed))
  {
  }

  // The stored access token is not the one the caller was refused with.
  predicate Renewed(s: State, stale: Option<Token>) {
    stale.Some? && s.auth.Some? && s.auth.value.access.Some? && s.auth.value.access != stale
  }

  // An election returns the stored access token iff it is newer than the stale one, fails
  // iff it is not and no refresh token is stored, and otherwise goes on with the stored one.
  lemma {:induction false} ElectOutcome(s: State, a: Action)
    requires Enabled(s, a) && a.Elect?
    ensures var stale, pc := PcOf(s, a.t).stale, PcOf(Next(s, a), a.t);
      && (pc == Done(Failed) <==> !Renewed(s, stale) && (s.auth.None? || s.auth.value.refresh.None?))
      && (Renewed(s, stale) ==> pc == Done(Returned(s.auth.value.access.value)))
      && (!Renewed(s, stale) && s.auth.Some? && s.auth.value.refresh.Some? ==> pc == Exchanging(stale, s.auth.value.refresh.value))
    ensures Next(s, a).auth == s.auth
  {
  }

  // A request goes out with the stored access token, and fails at once without one; a
  // refused request becomes a refresh for the very token it was refused with.
  lemma {:induction false} RequestOutcome(s: State, a: Action)
    requires Enabled(s, a)
    ensures a.Load? && s.auth.Some? && s.auth.value.access.Some?
      ==> PcOf(Next(s, a), a.t) == Requesting(s.auth.value.access.value)
    ensures a.Load? ==> (PcOf(Next(s, a), a.t) == Done(Failed) <==> s.auth.None? || s.auth.value.access.None?)
    ensures a.Unauthorized? ==> PcOf(Next(s, a), a.t) == Waiting(Some(PcOf(s, a.t).token))
  {
  }

  // A stored refresh token is never lost to a refresh: it is gone only after a login that
  // brought none, or a logout.
  lemma {:induction false} RefreshTokenKept(run: Run, i: nat, j: nat)
    requires IsRun(run) && i <= j <= |run.actions|
    requires forall k :: i <= k < j ==> !run.actions[k].Login? && !run.actions[k].Logout?
    requires run.states[i].auth.Some? && run.states[i].auth.value.refresh.Some?
    ensures run.states[j].auth.Some? && run.states[j].auth.value.refresh.Some?
    decreases j
  {
    if i < j {
      RefreshTokenKept(run, i, j - 1);
      var s, a := run.states[j - 1], run.actions[j - 1];
      assert StepAt(run, j - 1);
      assert !a.Login? && !a.Logout?;
      if a.Commit? { CommitOutcome(s, a); }
      if s.auth != Next(s, a).auth { OnlyWritersWrite(s, a); }
      hide Next, Enabled;
    }
  }

  // Every token a refresh returns is the stored access token when its last locked
  // section ends.
  lemma {:induction false} ReturnedIsStored(s: State, a: Action, t: Thread, token: Token)
    requires Enabled(s, a)
    requires PcOf(Next(s, a), t) == Done(Returned(token)) && PcOf(s, t) != Done(Returned(token))
    ensures StoredAccess(Next(s, a).auth) == Some(token)
  {
    if Actor(a) != Some(t) { Bystander(s, a, t); }
  }

  ghost predicate Unminted(s: State, r: Token) {
    forall t :: r !in Minted(PcOf(s, t))
  }

  // A refresh token that has left the store and that nobody has yet to store.
  ghost predicate Spent(s: State, r: Token) {
    r in s.issued && StoredRefresh(s.auth) != Some(r) && Unminted(s, r)
  }

  // An access token that cannot be the stored one, now or later.
  ghost predicate Superseded(s: State, x: Token) {
    x in s.issued && (s.auth.Some? ==> StoredAccess(s.auth).Some? && StoredAccess(s.auth) != Some(x)) && Unminted(s, x)
  }

  lemma {:induction false} UnmintedKept(s: State, a: Action, r: Token)
    requires Enabled(s, a) && r in s.issued && Unminted(s, r)
    ensures r in Next(s, a).issued && Unminted(Next(s, a), r)
  {
    forall t ensures r !in Minted(PcOf(Next(s, a), t)) {
      MintedFrom(s, a, t);
      assert r !in Minted(PcOf(s, t));
    }
  }

  lemma {:induction false} SpentKept(s: State, a: Action, r: Token)
    requires Enabled(s, a) && Spent(s, r)
    ensures Spent(Next(s, a), r)
  {
    UnmintedKept(s, a, r);
    if a.Commit? { assert r !in Minted(PcOf(s, a.t)); }
  }

  lemma {:induction false} SupersededKept(s: State, a: Action, x: Token)
    requires Enabled(s, a) && Superseded(s, x)
    ensures Superseded(Next(s, a), x)
  {
    UnmintedKept(s, a, x);
    if a.Commit? { assert x !in Minted(PcOf(s, a.t)); }
  }

  lemma {:induction false} SpentAlong(run: Run, i: nat, j: nat, r: Token)
    requires IsRun(run) && i <= j <= |run.actions| && Spent(run.states[i], r)
    ensures Spent(run.states[j], r)
    decreases j
  {
    if i < j {
      SpentAlong(run, i, j - 1, r);
      assert StepAt(run, j - 1);
      SpentKept(run.states[j - 1], run.actions[j - 1], r);
    }
  }

  lemma {:induction false} SupersededAlong(run: Run, i: nat, j: nat, x: Token)
    requires IsRun(run) && i <= j <= |run.actions| && Superseded(run.states[i], x)
    ensures Superseded(run.states[j], x)
    decreases j
  {
    if i < j {
      SupersededAlong(run, i, j - 1, x);
      assert StepAt(run, j - 1);
      SupersededKept(run.states[j - 1], run.actions[j - 1], x);
    }
  }

  // The refresh token the thread of a commit exchanged.
  function CapturedBy(s: State, a: Action): Option<Token> {
    if a.Commit? && PcOf(s, a.t).Committing? then Some(PcOf(s, a.t).captured) else None
  }

  predicate Rotates(s: State, a: Action) {
    Writes(s, a) && PcOf(s, a.t).rotated.Some?
  }

  lemma {:induction false} KnownUnminted(s: State, t: Thread, r: Token)
    requires Inv(s) && r in Known(PcOf(s, t))
    ensures r in s.issued && Unminted(s, r)
  {
    assert Carried(PcOf(s, t)) <= s.issued;
    forall u ensures r !in Minted(PcOf(s, u)) { assert Apart(s, u, t); }
  }

  // A commit never writes across a login or a logout: a refresh token captured before
  // one of them is not written over by any commit after it.
  lemma {:induction false} CommitNeverCrossesLogin(run: Run, k: nat, j: nat, t: Thread, r: Token)
    requires IsRun(run) && k < j < |run.actions|
    requires run.actions[k].Login? || run.actions[k].Logout?
    requires r in Known(PcOf(run.states[k], t))
    ensures CapturedBy(run.states[j], run.actions[j]) == Some(r) ==> !Writes(run.states[j], run.actions[j])
  {
    InvAlong(run, k);
    assert StepAt(run, k);
    var s := run.states[k];
    KnownUnminted(s, t, r);
    UnmintedKept(s, run.actions[k], r);
    assert Spent(run.states[k + 1], r);
    SpentAlong(run, k + 1, j, r);
  }

  // A logout is undone by a login only: whatever refreshes were under way, the section
  // stays cleared until somebody logs in.
  lemma {:induction false} LogoutNeverUndone(run: Run, i: nat, j: nat)
    requires IsRun(run) && i < j <= |run.actions|
    requires run.actions[i].Logout?
    requires forall k :: i < k < j ==> !run.actions[k].Login?
    ensures run.states[j].auth.None?
    decreases j
  {
    assert StepAt(run, j - 1);
    if i < j - 1 {
      LogoutNeverUndone(run, i, j - 1);
      assert !run.actions[j - 1].Login?;
    }
  }

  // Under rotation a stored refresh token is replaced by at most one refresh, over all
  // processes.
  lemma {:induction false} ReplacedAtMostOnce(run: Run, i: nat, j: nat, r: Token)
    requires IsRun(run) && i < j < |run.actions|
    requires Rotates(run.states[i], run.actions[i]) && CapturedBy(run.states[i], run.actions[i]) == Some(r)
    ensures CapturedBy(run.states[j], run.actions[j]) == Some(r) ==> !Writes(run.states[j], run.actions[j])
  {
    var s, a := run.states[i], run.actions[i];
    InvAlong(run, i);
    assert StepAt(run, i);
    KnownUnminted(s, a.t, r);
    UnmintedKept(s, a, r);
    assert r !in Minted(PcOf(s, a.t));
    assert Spent(run.states[i + 1], r);
    SpentAlong(run, i + 1, j, r);
  }

  // The stored access token, or a failure when there is none.
  function StoredOutcome(auth: Option<Auth>): Outcome {
    if StoredAccess(auth).Some? then Returned(StoredAccess(auth).value) else Failed
  }

  // Callers that come with the same stale access token after a commit has replaced it do
  // no exchange, in whatever process they run.
  lemma {:induction false} LosersDoNotExchange(run: Run, i: nat, j: nat, x: Token)
    requires IsRun(run) && i < j < |run.actions|
    requires Writes(run.states[i], run.actions[i]) && PcOf(run.states[i], run.actions[i].t).stale == Some(x)
    requires run.actions[j].Elect? && PcOf(run.states[j], run.actions[j].t) == Electing(Some(x))
    ensures PcOf(run.states[j + 1], run.actions[j].t) == Done(StoredOutcome(run.states[j].auth))
  {
    var s, a := run.states[i], run.actions[i];
    InvAlong(run, i);
    assert StepAt(run, i);
    KnownUnminted(s, a.t, x);
    UnmintedKept(s, a, x);
    assert x !in Minted(PcOf(s, a.t));
    assert Superseded(run.states[i + 1], x);
    SupersededAlong(run, i + 1, j, x);
    assert StepAt(run, j);
  }

  // ---- where a call comes from -------------------------------------------------------

  ghost predicate ElectedAt(run: Run, e: nat, t: Thread, stale: Option<Token>, captured: Token)
    requires |run.states| == |run.actions| + 1
  {
    && e < |run.actions| && run.actions[e] == Elect(t) && PcOf(run.states[e], t) == Electing(stale)
    && run.states[e].auth.Some? && run.states[e].auth.value.refresh == Some(captured)
  }

  // A thread in an exchange offers the refresh token that was stored at its election.
  lemma {:induction false} ExchangeFrom(run: Run, k: nat, t: Thread) returns (e: nat)
    requires IsRun(run) && k <= |run.actions| && PcOf(run.states[k], t).Exchanging?
    ensures e < k
    ensures var pc := PcOf(run.states[k], t); ElectedAt(run, e, t, pc.stale, pc.captured)
    ensures forall j :: e < j <= k ==> PcOf(run.states[j], t) == PcOf(run.states[k], t)
  {
    if k > 0 {
      var s, a := run.states[k - 1], run.actions[k - 1];
      assert StepAt(run, k - 1);
      if Actor(a) != Some(t) { Bystander(s, a, t); }
      if PcOf(s, t).Exchanging? {
        e := ExchangeFrom(run, k - 1, t);
      } else {
        e := k - 1;
      }
    }
  }

  // What a thread is about to commit came out of one exchange of its own, made with the
  // refresh token that was stored at its election.
  lemma {:induction false} CommitFrom(run: Run, k: nat, t: Thread) returns (e: nat, x: nat)
    requires IsRun(run) && k <= |run.actions| && PcOf(run.states[k], t).Committing?
    ensures e < x < k
    ensures var pc := PcOf(run.states[k], t);
      && ElectedAt(run, e, t, pc.stale, pc.captured)
      && run.actions[x] == Exchange(t, pc.minted, pc.rotated)
  {
    if k > 0 {
      var s, a := run.states[k - 1], run.actions[k - 1];
      assert StepAt(run, k - 1);
      if Actor(a) != Some(t) { Bystander(s, a, t); }
      if PcOf(s, t).Committing? {
        e, x := CommitFrom(run, k - 1, t);
      } else {
        e := ExchangeFrom(run, k - 1, t);
        x := k - 1;
      }
    }
  }

  // ---- two processes race -----------------------------------------------------------------

  // Threads 0 and 1, each in a process of its own.
  function Scene(auth: Auth, holder: map<Process, Thread>, first: Pc, second: Pc, issued: set<Token>): State {
    State(Some(auth), holder, map[0 := first, 1 := second], map[0 := 0, 1 := 1], issued)
  }

  predicate Leads(s: State, a: Action, s': State) {
    Enabled(s, a) && Next(s, a) == s'
  }

  lemma {:induction false} RaceStarts(auth: Auth, issued: set<Token>)
    requires auth == Auth(Some(1), Some(2)) && issued == {1, 2}
    ensures Init(Scene(auth, map[], Idle, Idle, issued))
    ensures Leads(Scene(auth, map[], Idle, Idle, issued), Load(0), Scene(auth, map[], Requesting(1), Idle, issued))
    ensures Leads(Scene(auth, map[], Requesting(1), Idle, issued), Load(1), Scene(auth, map[], Requesting(1), Requesting(1), issued))
    ensures Leads(Scene(auth, map[], Requesting(1), Requesting(1), issued), Unauthorized(0),
                  Scene(auth, map[], Waiting(Some(1)), Requesting(1), issued))
    ensures Leads(Scene(auth, map[], Waiting(Some(1)), Requesting(1), issued), Unauthorized(1),
                  Scene(auth, map[], Waiting(Some(1)), Waiting(Some(1)), issued))
  {
  }

  lemma {:induction false} BothElect(auth: Auth, issued: set<Token>)
    requires auth == Auth(Some(1), Some(2)) && issued == {1, 2}
    ensures var waiting, electing, exchanging := Waiting(Some(1)), Electing(Some(1)), Exchanging(Some(1), 2);
      && Leads(Scene(auth, map[], waiting, waiting, issued), Acquire(0), Scene(auth, map[0 := 0], electing, waiting, issued))
      && Leads(Scene(auth, map[0 := 0], electing, waiting, issued), Acquire(1),
               Scene(auth, map[0 := 0, 1 := 1], electing, electing, issued))
      && Leads(Scene(auth, map[0 := 0, 1 := 1], electing, electing, issued), Elect(0),
               Scene(auth, map[0 := 0, 1 := 1], exchanging, electing, issued))
      && Leads(Scene(auth, map[0 := 0, 1 := 1], exchanging, electing, issued), Elect(1),
               Scene(auth, map[0 := 0, 1 := 1], exchanging, exchanging, issued))
  {
  }

  lemma {:induction false} BothExchange(auth: Auth)
    requires auth == Auth(Some(1), Some(2))
    ensures var held, exchanging := map[0 := 0, 1 := 1], Exchanging(Some(1), 2);
      var one, two := Committing(Some(1), 2, 3, Some(4)), Committing(Some(1), 2, 5, Some(6));
      && Leads(Scene(auth, held, exchanging, exchanging, {1, 2}), Exchange(0, 3, Some(4)),
               Scene(auth, held, one, exchanging, {1, 2, 3, 4}))
      && Leads(Scene(auth, held, one, exchanging, {1, 2, 3, 4}), Exchange(1, 5, Some(6)),
               Scene(auth, held, one, two, {1, 2, 3, 4, 5, 6}))
  {
  }

  lemma {:induction false} FirstWins(auth: Auth, issued: set<Token>)
    requires auth == Auth(Some(1), Some(2))
    ensures var held := map[0 := 0, 1 := 1];
      var one, two := Committing(Some(1), 2, 3, Some(4)), Committing(Some(1), 2, 5, Some(6));
      Leads(Scene(auth, held, one, two, issued), Commit(0),
            Scene(Auth(Some(3), Some(4)), map[1 := 1], Done(Returned(3)), two, issued))
  {
  }

  lemma {:induction false} SecondDefers(auth: Auth, issued: set<Token>)
    requires auth == Auth(Some(3), Some(4))
    ensures var two := Committing(Some(1), 2, 5, Some(6));
      Leads(Scene(auth, map[1 := 1], Done(Returned(3)), two, issued), Commit(1),
            Scene(auth, map[], Done(Returned(3)), Done(Returned(3)), issued))
  {
  }

  // The run ends in the state.
  ghost predicate EndsIn(run: Run, s: State) {
    IsRun(run) && run.states[|run.actions|] == s
  }

  lemma {:induction false} Extends(run: Run, now: State, a: Action, s: State) returns (longer: Run)
    requires EndsIn(run, now) && Leads(now, a, s)
    ensures EndsIn(longer, s) && longer.actions == run.actions + [a]
  {
    hide Enabled, Next, Init;
    longer := Run(run.states + [s], run.actions + [a]);
    forall k | 0 <= k < |longer.actions| ensures StepAt(longer, k) {
      if k < |run.actions| { assert StepAt(run, k); }
    }
  }

  lemma {:induction false} RaceStart(auth: Auth, issued: set<Token>) returns (run: Run)
    requires Init(Scene(auth, map[], Idle, Idle, issued))
    ensures EndsIn(run, Scene(auth, map[], Idle, Idle, issued)) && run.actions == []
  {
    run := Run([Scene(auth, map[], Idle, Idle, issued)], []);
  }

  lemma {:induction false} RaceWaits(auth: Auth, issued: set<Token>) returns (run: Run)
    requires auth == Auth(Some(1), Some(2)) && issued == {1, 2}
    ensures EndsIn(run, Scene(auth, map[], Waiting(Some(1)), Waiting(Some(1)), issued))
    ensures |run.actions| == 4
  {
    RaceStarts(auth, issued);
    run := RaceStart(auth, issued);
    hide *;
    var asking, waiting := Requesting(1), Waiting(Some(1));
    var s0, s1 := Scene(auth, map[], Idle, Idle, issued), Scene(auth, map[], asking, Idle, issued);
    var s2, s3 := Scene(auth, map[], asking, asking, issued), Scene(auth, map[], waiting, asking, issued);
    run := Extends(run, s0, Load(0), s1);
    run := Extends(run, s1, Load(1), s2);
    run := Extends(run, s2, Unauthorized(0), s3);
    run := Extends(run, s3, Unauthorized(1), Scene(auth, map[], waiting, waiting, issued));
  }

  lemma {:induction false} RaceElects(auth: Auth, issued: set<Token>) returns (run: Run)
    requires auth == Auth(Some(1), Some(2)) && issued == {1, 2}
    ensures EndsIn(run, Scene(auth, map[0 := 0, 1 := 1], Exchanging(Some(1), 2), Exchanging(Some(1), 2), issued))
    ensures |run.actions| == 8
  {
    run := RaceWaits(auth, issued);
    BothElect(auth, issued);
    hide *;
    var waiting, electing, exchanging := Waiting(Some(1)), Electing(Some(1)), Exchanging(Some(1), 2);
    var one, both := map[0 := 0], map[0 := 0, 1 := 1];
    var s0, s1 := Scene(auth, map[], waiting, waiting, issued), Scene(auth, one, electing, waiting, issued);
    var s2, s3 := Scene(auth, both, electing, electing, issued), Scene(auth, both, exchanging, electing, issued);
    run := Extends(run, s0, Acquire(0), s1);
    run := Extends(run, s1, Acquire(1), s2);
    run := Extends(run, s2, Elect(0), s3);
    run := Extends(run, s3, Elect(1), Scene(auth, both, exchanging, exchanging, issued));
  }

  lemma {:induction false} RaceCommits() returns (run: Run)
    ensures EndsIn(run, Scene(Auth(Some(3), Some(4)), map[], Done(Returned(3)), Done(Returned(3)), {1, 2, 3, 4, 5, 6}))
    ensures |run.actions| == 12
    ensures run.actions[8..] == [Exchange(0, 3, Some(4)), Exchange(1, 5, Some(6)), Commit(0), Commit(1)]
  {
    var auth, after, issued, all := Auth(Some(1), Some(2)), Auth(Some(3), Some(4)), {1, 2}, {1, 2, 3, 4, 5, 6};
    run := RaceElects(auth, issued);
    BothExchange(auth);
    FirstWins(auth, all);
    SecondDefers(after, all);
    hide *;
    var exchanging, one, two := Exchanging(Some(1), 2), Committing(Some(1), 2, 3, Some(4)), Committing(Some(1), 2, 5, Some(6));
    var both, first := map[0 := 0, 1 := 1], run.actions;
    var s0, s1 := Scene(auth, both, exchanging, exchanging, issued), Scene(auth, both, one, exchanging, {1, 2, 3, 4});
    var s2, s3 := Scene(auth, both, one, two, all), Scene(after, map[1 := 1], Done(Returned(3)), two, all);
    run := Extends(run, s0, Exchange(0, 3, Some(4)), s1);
    run := Extends(run, s1, Exchange(1, 5, Some(6)), s2);
    run := Extends(run, s2, Commit(0), s3);
    run := Extends(run, s3, Commit(1), Scene(after, map[], Done(Returned(3)), Done(Returned(3)), all));
    assert run.actions == first + [Exchange(0, 3, Some(4)), Exchange(1, 5, Some(6)), Commit(0), Commit(1)];
  }

  // Two processes refresh for the same stale token at once and both exchange the stored
  // refresh token; the first commit wins, and the second stores nothing and returns what
  // the first one stored.
  lemma {:induction false} RaceExample() returns (run: Run)
    ensures IsRun(run) && |run.actions| == 12
    ensures run.actions[8..] == [Exchange(0, 3, Some(4)), Exchange(1, 5, Some(6)), Commit(0), Commit(1)]
    ensures HomeOf(run.states[12], 0) != HomeOf(run.states[12], 1)
    ensures run.states[12].auth == Some(Auth(Some(3), Some(4)))
    ensures PcOf(run.states[12], 0) == Done(Returned(3)) && PcOf(run.states[12], 1) == Done(Returned(3))
  {
    run := RaceCommits();
    hide Init, StepAt;
  }
}
