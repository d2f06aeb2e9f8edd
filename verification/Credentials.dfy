/** The credential cache: one call, and many calls interleaved under the lock. */
module Credentials {
  import opened Relational

  /** No expiry means the credential is static. */
  datatype Credential = Credential(value: string, expires: Option<int>, username: Option<string>)

  predicate IsFresh(c: Credential, now: int, skew: int) {
    c.expires.None? || now + skew < c.expires.value
  }

  /** What the provider answers: an error, or a credential. */
  datatype Answer = Fails | Gives(credential: Credential)

  datatype Outcome = Got(credential: Credential) | ProviderError | EmptyValue | NothingFetched

  /** The wrapper's settings. `blank` holds for text that is empty once stripped. */
  datatype Config = Config(skew: int, blank: string -> bool)

  /** One whole call: the cache afterwards, and what the caller gets. */
  function Call(cfg: Config, cached: Option<Credential>, now: int, answer: Answer): (Option<Credential>, Outcome) {
    if cached.Some? && IsFresh(cached.value, now, cfg.skew) then (cached, Got(cached.value))
    else
      match answer
      case Fails => (cached, ProviderError)
      case Gives(c) => if cfg.blank(c.value) then (cached, EmptyValue) else (Some(c), Got(c))
  }

  class CachingProvider {
    const cfg: Config
    var cached: Option<Credential>

    constructor (cfg: Config)
      ensures this.cfg == cfg && cached == None
    {
      this.cfg := cfg;
      cached := None;
    }

    method CachedValue() returns (r: Outcome)
      ensures r == if cached.None? then NothingFetched else Got(cached.value)
    {
      if cached == None {
        return NothingFetched;
      }
      return Got(cached.value);
    }

    /** Fetch unless the held credential is still good. This is the part under the lock. */
    method FetchIfStale(now: int, answer: Answer) returns (r: Outcome)
      modifies this
      ensures (cached, r) == Call(cfg, old(cached), now, answer)
    {
      var held := cached;
      if held.Some? && IsFresh(held.value, now, cfg.skew) {
        return Got(held.value);
      }
      match answer
      case Fails =>
        return ProviderError;
      case Gives(fetched) =>
        if cfg.blank(fetched.value) {
          return EmptyValue;
        }
        cached := Some(fetched);
        return Got(fetched);
    }
  }

  // ---------------------------------------------------------------- interleaved calls

  /** Where a thread is in its call. `checked` is the clock reading of its freshness check. */
  datatype Phase =
    | Idle
    | Waiting
    | Locked
    | Stale(checked: int)
    | Fetched(checked: int, answered: int, credential: Credential)

  /** A stored fetch. */
  datatype Fetch = Fetch(thread: nat, checked: int, answered: int, credential: Credential)

  /** A finished call: the clock reading of its check and what it returned or raised. */
  datatype Finished = Finished(thread: nat, checked: int, outcome: Outcome, fetched: bool)

  datatype State = State(
    clock: int, cached: Option<Credential>, holder: Option<nat>, phases: map<nat, Phase>,
    fetches: seq<Fetch>, finished: seq<Finished>)

  datatype Event =
    | Tick(to: int)
    | Enter(thread: nat)
    | Acquire(thread: nat)
    | Check(thread: nat)
    | Answered(thread: nat, answer: Answer)
    | Store(thread: nat)

  function PhaseOf(s: State, t: nat): Phase {
    if t in s.phases then s.phases[t] else Idle
  }

  /** Leave the critical section with an outcome. */
  function Finish(s: State, t: nat, checked: int, outcome: Outcome, fetched: bool): State {
    s.(holder := None, phases := s.phases[t := Idle], finished := s.finished + [Finished(t, checked, outcome, fetched)])
  }

  /** The state after one event, if the event can happen. */
  function Next(cfg: Config, s: State, e: Event): Option<State> {
    match e
    case Tick(to) => if s.clock <= to then Some(s.(clock := to)) else None
    case Enter(t) => if PhaseOf(s, t).Idle? then Some(s.(phases := s.phases[t := Waiting])) else None
    case Acquire(t) =>
      if PhaseOf(s, t).Waiting? && s.holder.None? then
        Some(s.(holder := Some(t), phases := s.phases[t := Locked]))
      else None
    case Check(t) =>
      if !PhaseOf(s, t).Locked? then None
      else if s.cached.Some? && IsFresh(s.cached.value, s.clock, cfg.skew) then
        Some(Finish(s, t, s.clock, Got(s.cached.value), false))
      else Some(s.(phases := s.phases[t := Stale(s.clock)]))
    case Answered(t, answer) =>
      if !PhaseOf(s, t).Stale? then None
      else
        (match answer
         case Fails => Some(Finish(s, t, PhaseOf(s, t).checked, ProviderError, false))
         case Gives(c) =>
           if cfg.blank(c.value) then Some(Finish(s, t, PhaseOf(s, t).checked, EmptyValue, false))
           else Some(s.(phases := s.phases[t := Fetched(PhaseOf(s, t).checked, s.clock, c)])))
    case Store(t) =>
      if !PhaseOf(s, t).Fetched? then None
      else
        var p := PhaseOf(s, t);
        var fetches := s.fetches + [Fetch(t, p.checked, p.answered, p.credential)];
        var stored := s.(cached := Some(p.credential), fetches := fetches);
        Some(Finish(stored, t, p.checked, Got(p.credential), true))
  }

  function Init(start: int): State {
    State(start, None, None, map[], [], [])
  }

  /** The state after a run, if every event of it can happen in turn. */
  function Run(cfg: Config, start: int, events: seq<Event>): Option<State> {
    if events == [] then Some(Init(start))
    else
      var s := Run(cfg, start, events[..|events| - 1]);
      if s.None? then None else Next(cfg, s.value, events[|events| - 1])
  }

  // ---------------------------------------------------------------- what every run keeps

  predicate Critical(p: Phase) {
    p.Locked? || p.Stale? || p.Fetched?
  }

  /** The held credential was not usable at that clock reading. */
  predicate Unusable(cfg: Config, cached: Option<Credential>, now: int) {
    cached.None? || !IsFresh(cached.value, now, cfg.skew)
  }

  /** Only the lock's holder is in the critical section. */
  ghost predicate Exclusive(s: State) {
    forall t :: t in s.phases ==> (Critical(s.phases[t]) <==> s.holder == Some(t))
  }

  /** What a thread past its check knows still holds. */
  ghost predicate Steady(cfg: Config, s: State, p: Phase) {
    && (p.Stale? || p.Fetched? ==> p.checked <= s.clock && Unusable(cfg, s.cached, p.checked))
    && (p.Stale? || p.Fetched? ==> s.fetches == [] || s.fetches[|s.fetches| - 1].answered <= p.checked)
    && (p.Fetched? ==> p.checked <= p.answered <= s.clock && !cfg.blank(p.credential.value))
  }

  /** A later fetch was checked when the one before it had become unusable. */
  ghost predicate Spaced(cfg: Config, fetches: seq<Fetch>) {
    && (forall i :: 0 <= i < |fetches| ==> fetches[i].checked <= fetches[i].answered)
    && (forall i :: 0 < i < |fetches| ==> Succeeds(cfg, fetches[i - 1], fetches[i]))
  }

  ghost predicate Succeeds(cfg: Config, a: Fetch, b: Fetch) {
    a.answered <= b.checked && !IsFresh(a.credential, b.checked, cfg.skew)
  }

  /** The returned credential was fresh at the check, or fetched and stored in that very call. */
  ghost predicate Justified(cfg: Config, s: State, f: Finished) {
    f.outcome.Got? ==>
      && !cfg.blank(f.outcome.credential.value)
      && (if f.fetched then
            exists x :: x in s.fetches && x.thread == f.thread && x.checked == f.checked
              && x.credential == f.outcome.credential
          else IsFresh(f.outcome.credential, f.checked, cfg.skew))
  }

  ghost predicate Inv(cfg: Config, s: State) {
    && (s.holder.Some? ==> s.holder.value in s.phases)
    && Exclusive(s)
    && (forall t :: t in s.phases ==> Steady(cfg, s, s.phases[t]))
    && s.cached == (if s.fetches == [] then None else Some(s.fetches[|s.fetches| - 1].credential))
    && (s.cached.Some? ==> !cfg.blank(s.cached.value.value))
    && Spaced(cfg, s.fetches)
    && (forall x :: x in s.fetches ==> x.answered <= s.clock)
    && (forall f :: f in s.finished ==> Justified(cfg, s, f))
  }

  lemma {:induction false} StoreKeeps(cfg: Config, s: State, t: nat)
    requires Inv(cfg, s) && PhaseOf(s, t).Fetched?
    ensures Inv(cfg, Next(cfg, s, Store(t)).value)
  {
    var s' := Next(cfg, s, Store(t)).value;
    var p := PhaseOf(s, t);
    var last := s'.fetches[|s.fetches|];
    assert last in s'.fetches;
    forall x | x in s'.phases
      ensures Critical(s'.phases[x]) <==> s'.holder == Some(x)
      ensures Steady(cfg, s', s'.phases[x])
    {
      if x != t {
        assert s'.phases[x] == s.phases[x];
      }
    }
    forall f | f in s'.finished
      ensures Justified(cfg, s', f)
    {
      if f in s.finished {
        assert Justified(cfg, s, f);
        assert forall x :: x in s.fetches ==> x in s'.fetches;
      }
    }
  }

  lemma {:induction false} FinishKeeps(cfg: Config, s: State, t: nat, checked: int, outcome: Outcome)
    requires Inv(cfg, s) && s.holder == Some(t)
    requires outcome.Got? ==> !cfg.blank(outcome.credential.value) && IsFresh(outcome.credential, checked, cfg.skew)
    ensures Inv(cfg, Finish(s, t, checked, outcome, false))
  {
    var s' := Finish(s, t, checked, outcome, false);
    forall f | f in s'.finished
      ensures Justified(cfg, s', f)
    {
      if f in s.finished {
        assert Justified(cfg, s, f);
      }
    }
  }

  lemma {:induction false} MoveKeeps(cfg: Config, s: State, t: nat, p: Phase)
    requires Inv(cfg, s) && Steady(cfg, s, p) && Critical(p) == (s.holder == Some(t))
    ensures Inv(cfg, s.(phases := s.phases[t := p]))
  {
    var s' := s.(phases := s.phases[t := p]);
    forall f | f in s'.finished
      ensures Justified(cfg, s', f)
    {
      assert Justified(cfg, s, f);
    }
  }

  lemma {:induction false} AcquireKeeps(cfg: Config, s: State, t: nat)
    requires Inv(cfg, s) && PhaseOf(s, t).Waiting? && s.holder.None?
    ensures Inv(cfg, Next(cfg, s, Acquire(t)).value)
  {
    var s' := Next(cfg, s, Acquire(t)).value;
    forall f | f in s'.finished
      ensures Justified(cfg, s', f)
    {
      assert Justified(cfg, s, f);
    }
  }

  lemma {:induction false} TickKeeps(cfg: Config, s: State, to: int)
    requires Inv(cfg, s) && s.clock <= to
    ensures Inv(cfg, s.(clock := to))
  {
    var s' := s.(clock := to);
    forall f | f in s'.finished
      ensures Justified(cfg, s', f)
    {
      assert Justified(cfg, s, f);
    }
  }

  lemma {:induction false} LastAnswered(cfg: Config, s: State)
    requires Inv(cfg, s)
    ensures s.fetches != [] ==> s.fetches[|s.fetches| - 1].answered <= s.clock
  {
  }

  /** Every step keeps the invariant. */
  lemma {:induction false} StepKeeps(cfg: Config, s: State, e: Event)
    requires Inv(cfg, s) && Next(cfg, s, e).Some?
    ensures Inv(cfg, Next(cfg, s, e).value)
  {
    LastAnswered(cfg, s);
    match e
    case Tick(to) => TickKeeps(cfg, s, to);
    case Enter(t) => MoveKeeps(cfg, s, t, Waiting);
    case Acquire(t) => AcquireKeeps(cfg, s, t);
    case Check(t) =>
      if Unusable(cfg, s.cached, s.clock) {
        MoveKeeps(cfg, s, t, Stale(s.clock));
      } else {
        FinishKeeps(cfg, s, t, s.clock, Got(s.cached.value));
      }
    case Answered(t, answer) =>
      var p := PhaseOf(s, t);
      match answer {
        case Fails => FinishKeeps(cfg, s, t, p.checked, ProviderError);
        case Gives(c) =>
          if cfg.blank(c.value) {
            FinishKeeps(cfg, s, t, p.checked, EmptyValue);
          } else {
            MoveKeeps(cfg, s, t, Fetched(p.checked, s.clock, c));
          }
      }
    case Store(t) => StoreKeeps(cfg, s, t);
  }

  /** In every run: one thread at a time holds the lock, the cache is the last stored fetch, and
      every returned credential was fresh at its check or fetched in that call. */
  lemma {:induction false} RunKeeps(cfg: Config, start: int, events: seq<Event>)
    requires Run(cfg, start, events).Some?
    ensures Inv(cfg, Run(cfg, start, events).value)
  {
    if events != [] {
      var n := |events| - 1;
      RunKeeps(cfg, start, events[..n]);
      StepKeeps(cfg, Run(cfg, start, events[..n]).value, events[n]);
    }
  }

  // ---------------------------------------------------------------- calls are atomic

  /** The event ends a call. */
  predicate Ends(cfg: Config, s: State, e: Event) {
    || (e.Check? && !Unusable(cfg, s.cached, s.clock))
    || (e.Answered? && (e.answer.Fails? || cfg.blank(e.answer.credential.value)))
    || e.Store?
  }

  /** What the provider answered in the call the event ends. */
  function AnswerOf(s: State, e: Event): Answer {
    if e.Answered? then e.answer
    else if e.Store? && PhaseOf(s, e.thread).Fetched? then Gives(PhaseOf(s, e.thread).credential)
    else Fails
  }

  /** However calls interleave, the event that ends one changes the cache and answers the caller as
      a whole call made at the time of its check, and no other event touches the cache. */
  lemma {:induction false} InterleavedIsAtomic(cfg: Config, s: State, e: Event)
    requires Inv(cfg, s) && Next(cfg, s, e).Some?
    ensures var s' := Next(cfg, s, e).value;
      if Ends(cfg, s, e) then
        && |s'.finished| == |s.finished| + 1
        && var f := s'.finished[|s.finished|];
        && (s'.cached, f.outcome) == Call(cfg, s.cached, f.checked, AnswerOf(s, e))
      else s'.cached == s.cached && s'.finished == s.finished
  {
    if !e.Tick? && e.thread in s.phases {
      assert Steady(cfg, s, s.phases[e.thread]);
    }
  }

  /** A failed or blank fetch leaves the cache as it is, and nothing ever empties it. */
  lemma {:induction false} CacheNeverLost(cfg: Config, s: State, e: Event)
    requires Inv(cfg, s) && Next(cfg, s, e).Some?
    ensures var s' := Next(cfg, s, e).value;
      && (s.cached.Some? ==> s'.cached.Some?)
      && (e.Answered? ==> s'.cached == s.cached)
      && (s'.cached != s.cached ==> e.Store? && Unusable(cfg, s.cached, PhaseOf(s, e.thread).checked))
  {
    if !e.Tick? && e.thread in s.phases {
      assert Steady(cfg, s, s.phases[e.thread]);
    }
  }

  // ---------------------------------------------------------------- how often is fetched

  /** Every stored credential lives at least `skew + life` from when the provider answered. */
  ghost predicate LongLived(cfg: Config, fetches: seq<Fetch>, life: int) {
    forall x :: x in fetches && x.credential.expires.Some?
        ==> x.answered + cfg.skew + life <= x.credential.expires.value
  }

  lemma {:induction false} FetchesApart(cfg: Config, fetches: seq<Fetch>, life: int, i: nat)
    requires Spaced(cfg, fetches) && LongLived(cfg, fetches, life) && 0 < i < |fetches|
    ensures fetches[i - 1].checked + life <= fetches[i].checked
  {
    assert fetches[i - 1] in fetches;
    assert Succeeds(cfg, fetches[i - 1], fetches[i]);
  }

  lemma {:induction false} FetchesSpan(cfg: Config, fetches: seq<Fetch>, life: int, i: nat)
    requires Spaced(cfg, fetches) && LongLived(cfg, fetches, life) && i < |fetches|
    ensures fetches[0].checked + i * life <= fetches[i].checked
  {
    if i > 0 {
      FetchesSpan(cfg, fetches, life, i - 1);
      FetchesApart(cfg, fetches, life, i);
      assert (i - 1) * life + life == i * life;
    }
  }

  lemma {:induction false} FirstChecked(cfg: Config, start: int, events: seq<Event>)
    requires Run(cfg, start, events).Some?
    ensures var s := Run(cfg, start, events).value;
      && start <= s.clock
      && (forall t :: t in s.phases && (s.phases[t].Stale? || s.phases[t].Fetched?) ==> start <= s.phases[t].checked)
      && (forall x :: x in s.fetches ==> start <= x.checked)
  {
    if events != [] {
      FirstChecked(cfg, start, events[..|events| - 1]);
    }
  }

  /** A run of length T makes at most T / life + 1 successful fetches. */
  lemma {:induction false} FetchesAreBounded(cfg: Config, start: int, events: seq<Event>, life: int)
    requires life > 0 && Run(cfg, start, events).Some?
    requires LongLived(cfg, Run(cfg, start, events).value.fetches, life)
    ensures var s := Run(cfg, start, events).value;
      |s.fetches| <= (s.clock - start) / life + 1
  {
    var s := Run(cfg, start, events).value;
    RunKeeps(cfg, start, events);
    FirstChecked(cfg, start, events);
    if s.fetches != [] {
      var n := |s.fetches| - 1;
      FetchesSpan(cfg, s.fetches, life, n);
      assert s.fetches[0] in s.fetches && s.fetches[n] in s.fetches;
      Divides(n, life, s.clock - start);
    } else {
      Divides(0, life, s.clock - start);
    }
  }

  lemma {:induction false} Divides(n: nat, life: int, span: int)
    requires life > 0 && n * life <= span
    ensures n <= span / life
  {
    Grows(span / life + 1, n, life);
    assert (span / life + 1) * life == span / life * life + life;
  }

  lemma {:induction false} Grows(a: int, b: int, x: int)
    requires x > 0
    ensures a <= b ==> a * x <= b * x
  {
    assert b * x - a * x == (b - a) * x;
  }

  lemma {:induction false} FirstExpires(cfg: Config, fetches: seq<Fetch>)
    requires Spaced(cfg, fetches)
    ensures |fetches| > 1 ==> fetches[0] in fetches && fetches[0].credential.expires.Some?
  {
    assert |fetches| > 1 ==> Succeeds(cfg, fetches[0], fetches[1]);
  }

  /** A credential without expiry is fetched once. */
  lemma {:induction false} StaticIsFetchedOnce(cfg: Config, start: int, events: seq<Event>)
    requires Run(cfg, start, events).Some?
    requires forall x :: x in Run(cfg, start, events).value.fetches ==> x.credential.expires.None?
    ensures |Run(cfg, start, events).value.fetches| <= 1
  {
    var s := Run(cfg, start, events).value;
    RunKeeps(cfg, start, events);
    FirstExpires(cfg, s.fetches);
  }
}
