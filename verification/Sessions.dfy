/** The exec-session registry and the goroutines around it. Sessions are numbered in the order they
    are opened; an id may be reused. A pump's exit closes whatever session holds its id by then. */
module Sessions {

  // ----- the registry -----

  /** The sessions whose cancel function runs when `id` is closed or replaced. */
  function Holder(live: map<string, nat>, id: string): set<nat> {
    if id in live then {live[id]} else {}
  }

  class Registry {
    var live: map<string, nat>
    /** The cancel calls made, in order. */
    var cancels: seq<nat>

    constructor ()
      ensures live == map[] && cancels == []
    {
      live, cancels := map[], [];
    }

    method Open(id: string, session: nat)
      modifies this
      ensures live == old(live)[id := session]
      ensures old(cancels) <= cancels && multiset(cancels) == multiset(old(cancels)) + multiset(Holder(old(live), id))
    {
      if id in live {
        cancels := cancels + [live[id]];
      }
      live := live[id := session];
    }

    method Close(id: string)
      modifies this
      ensures live == old(live) - {id}
      ensures old(cancels) <= cancels && multiset(cancels) == multiset(old(cancels)) + multiset(Holder(old(live), id))
    {
      if id in live {
        cancels := cancels + [live[id]];
        live := live - {id};
      }
    }

    /** Every live session is cancelled, once if no two ids share it. */
    method CloseAll()
      modifies this
      ensures live == map[] && old(cancels) <= cancels && |cancels| == |old(cancels)| + |old(live)|
      ensures (set s | s in cancels[|old(cancels)|..]) == old(live.Values)
      ensures Injective(old(live)) ==> multiset(cancels) == multiset(old(cancels)) + multiset(old(live.Values))
    {
      var todo := live.Keys;
      while todo != {}
        invariant live == old(live) && Closing(live, live.Keys - todo, todo, old(cancels), cancels)
        decreases todo
      {
        var id :| id in todo;
        assert live.Keys - (todo - {id}) == live.Keys - todo + {id};
        OneMore(live, live.Keys - todo, todo, old(cancels), cancels, id);
        cancels := cancels + [live[id]];
        todo := todo - {id};
      }
      assert Of(live, live.Keys - todo) == live.Values;
      live := map[];
    }
  }

  ghost predicate Injective(live: map<string, nat>) {
    forall a, b :: a in live && b in live && live[a] == live[b] ==> a == b
  }

  /** The sessions of these ids. */
  function Of(live: map<string, nat>, ids: set<string>): set<nat>
    requires ids <= live.Keys
  {
    set id | id in ids :: live[id]
  }

  /** The cancel calls made since `was`, when the ids in `done` have been dealt with. */
  ghost predicate Closing(live: map<string, nat>, done: set<string>, todo: set<string>, was: seq<nat>, now: seq<nat>) {
    && done <= live.Keys && todo <= live.Keys && was <= now && |now| + |todo| == |was| + |live|
    && (set s | s in now[|was|..]) == Of(live, done)
    && (Injective(live) ==> multiset(now) == multiset(was) + multiset(Of(live, done)))
  }

  lemma OneMore(live: map<string, nat>, done: set<string>, todo: set<string>, was: seq<nat>, now: seq<nat>, id: string)
    requires Closing(live, done, todo, was, now) && id in todo && id !in done
    ensures Closing(live, done + {id}, todo - {id}, was, now + [live[id]])
  {
    OfMore(live, done, id);
    assert (now + [live[id]])[|was|..] == now[|was|..] + [live[id]];
  }

  lemma OfMore(live: map<string, nat>, ids: set<string>, id: string)
    requires ids <= live.Keys && id in live && id !in ids
    ensures Of(live, ids + {id}) == Of(live, ids) + {live[id]}
    ensures Injective(live) ==> multiset(Of(live, ids + {id})) == multiset(Of(live, ids)) + multiset{live[id]}
  {
  }

  // ----- the protocol -----

  /** Run is going; Run has returned; the deferred Close has run. */
  datatype Pump = Pumping | Returned | Finished

  datatype Cause = Replaced(successor: nat) | ExitOf(session: nat) | Shutdown

  /** `over` are the earlier sessions of the same id whose pump had not finished at open. */
  datatype Session = Session(id: string, pump: Pump, cancelled: seq<Cause>, over: set<nat>)

  datatype State = State(sessions: seq<Session>, live: map<string, nat>)

  datatype Event = Open(id: string) | RunReturns(session: nat) | PumpExits(session: nat) | CloseAll

  const Start: State := State([], map[])

  predicate Enabled(s: State, e: Event) {
    match e
    case Open(_) => true
    case RunReturns(t) => t < |s.sessions| && s.sessions[t].pump.Pumping?
    case PumpExits(t) => t < |s.sessions| && s.sessions[t].pump.Returned?
    case CloseAll => true
  }

  function Cancel(ss: seq<Session>, who: set<nat>, why: Cause): (r: seq<Session>)
    ensures |r| == |ss|
    ensures forall t :: 0 <= t < |ss| ==>
              r[t] == if t in who then ss[t].(cancelled := ss[t].cancelled + [why]) else ss[t]
  {
    seq(|ss|, t requires 0 <= t < |ss| => if t in who then ss[t].(cancelled := ss[t].cancelled + [why]) else ss[t])
  }

  function Unfinished(ss: seq<Session>, id: string): set<nat> {
    set t | 0 <= t < |ss| && ss[t].id == id && !ss[t].pump.Finished?
  }

  function Next(s: State, e: Event): State
    requires Enabled(s, e)
  {
    match e
    case Open(id) =>
      var n := |s.sessions|;
      var added := Session(id, Pumping, [], Unfinished(s.sessions, id));
      State(Cancel(s.sessions, Holder(s.live, id), Replaced(n)) + [added], s.live[id := n])
    case RunReturns(t) =>
      s.(sessions := s.sessions[t := s.sessions[t].(pump := Returned)])
    case PumpExits(t) =>
      var id := s.sessions[t].id;
      var ss := Cancel(s.sessions, Holder(s.live, id), ExitOf(t));
      State(ss[t := ss[t].(pump := Finished)], s.live - {id})
    case CloseAll =>
      State(Cancel(s.sessions, s.live.Values, Shutdown), map[])
  }

  /** Any sequence of events is an interleaving; one that cannot happen yet does nothing. */
  function After(es: seq<Event>): State {
    if es == [] then Start
    else
      var s, e := After(es[..|es| - 1]), es[|es| - 1];
      if Enabled(s, e) then Next(s, e) else s
  }

  // ----- what every interleaving keeps -----

  predicate IsLive(s: State, t: nat) {
    t < |s.sessions| && s.sessions[t].id in s.live && s.live[s.sessions[t].id] == t
  }

  /** The registry names the newest session of each id it holds; the live ones have not been cancelled
      and their pump has not finished, all others have been cancelled exactly once. */
  ghost predicate SoundAt(s: State, t: nat)
    requires t < |s.sessions|
  {
    && (s.sessions[t].id in s.live ==> t <= s.live[s.sessions[t].id])
    && (if IsLive(s, t) then s.sessions[t].cancelled == [] && !s.sessions[t].pump.Finished?
        else |s.sessions[t].cancelled| == 1)
  }

  ghost predicate Sound(s: State) {
    && (forall id :: id in s.live ==> s.live[id] < |s.sessions| && s.sessions[s.live[id]].id == id)
    && (forall t :: 0 <= t < |s.sessions| ==> SoundAt(s, t))
  }

  /** Who may have cancelled a session: its own exit, a shutdown, a later session that took over its id,
      or the exit of an earlier one that was unfinished when it opened. */
  predicate Explained(ss: seq<Session>, t: nat, why: Cause)
    requires t < |ss|
  {
    match why
    case Shutdown => true
    case ExitOf(u) => u == t || (u in ss[t].over && u < t && ss[u].id == ss[t].id && |ss[u].cancelled| == 1)
    case Replaced(v) => t < v < |ss| && t in ss[v].over && ss[v].id == ss[t].id
  }

  ghost predicate AllExplained(s: State) {
    forall t, i :: 0 <= t < |s.sessions| && 0 <= i < |s.sessions[t].cancelled| ==>
                     Explained(s.sessions, t, s.sessions[t].cancelled[i])
  }

  /** Any pump still to finish is among those a later session of its id knows of. */
  ghost predicate OverKnown(s: State) {
    && (forall u :: 0 <= u < |s.sessions| ==> EarlierOnly(s.sessions, u))
    && (forall t, u :: 0 <= t < u < |s.sessions| ==> Knows(s.sessions, t, u))
  }

  ghost predicate EarlierOnly(ss: seq<Session>, u: nat)
    requires u < |ss|
  {
    forall t :: t in ss[u].over ==> t < u && ss[t].id == ss[u].id
  }

  predicate Knows(ss: seq<Session>, t: nat, u: nat)
    requires t < |ss| && u < |ss|
  {
    ss[t].id == ss[u].id && !ss[t].pump.Finished? ==> t in ss[u].over
  }

  lemma SoundOpen(s: State, id: string)
    requires Sound(s)
    ensures Sound(Next(s, Open(id)))
  {
    var r := Next(s, Open(id));
    forall t | 0 <= t < |s.sessions| ensures SoundAt(r, t) { assert SoundAt(s, t); }
  }

  lemma SoundExit(s: State, u: nat)
    requires Sound(s) && Enabled(s, PumpExits(u))
    ensures Sound(Next(s, PumpExits(u)))
  {
    var r := Next(s, PumpExits(u));
    forall t | 0 <= t < |s.sessions| ensures SoundAt(r, t) { assert SoundAt(s, t); }
  }

  lemma SoundCloseAll(s: State)
    requires Sound(s)
    ensures Sound(Next(s, CloseAll))
  {
    var r := Next(s, CloseAll);
    forall t | 0 <= t < |s.sessions| ensures SoundAt(r, t) {
      assert SoundAt(s, t);
    }
  }

  lemma SoundStep(s: State, e: Event)
    requires Sound(s) && Enabled(s, e)
    ensures Sound(Next(s, e))
  {
    match e
    case Open(id) => SoundOpen(s, id);
    case PumpExits(u) => SoundExit(s, u);
    case CloseAll => SoundCloseAll(s);
    case RunReturns(_) =>
      var r := Next(s, e);
      forall t | 0 <= t < |s.sessions| ensures SoundAt(r, t) { assert SoundAt(s, t); }
  }

  /** What no step changes: ids and what was known at the open; a finished pump stays finished. */
  lemma StepKeeps(s: State, e: Event, u: nat)
    requires Enabled(s, e) && u < |s.sessions|
    ensures var r := Next(s, e);
            && |r.sessions| >= |s.sessions| && r.sessions[u].id == s.sessions[u].id
            && r.sessions[u].over == s.sessions[u].over
            && (s.sessions[u].pump.Finished? ==> r.sessions[u].pump.Finished?)
            && s.sessions[u].cancelled <= r.sessions[u].cancelled
  {
  }

  lemma OverStep(s: State, e: Event)
    requires OverKnown(s) && Enabled(s, e)
    ensures OverKnown(Next(s, e))
  {
    var r := Next(s, e);
    forall u | 0 <= u < |r.sessions| ensures EarlierOnly(r.sessions, u) { EarlierStep(s, e, u); }
    forall t, u | 0 <= t < u < |r.sessions| ensures Knows(r.sessions, t, u) { KnowsStep(s, e, t, u); }
  }

  lemma EarlierStep(s: State, e: Event, u: nat)
    requires OverKnown(s) && Enabled(s, e) && u < |Next(s, e).sessions|
    ensures EarlierOnly(Next(s, e).sessions, u)
  {
    var r, n := Next(s, e), |s.sessions|;
    assert u < n ==> EarlierOnly(s.sessions, u);
    if u < n { StepKeeps(s, e, u); } else { assert r.sessions[n].over == Unfinished(s.sessions, e.id); }
    forall t | t in r.sessions[u].over ensures t < u && r.sessions[t].id == r.sessions[u].id { StepKeeps(s, e, t); }
  }

  lemma KnowsStep(s: State, e: Event, t: nat, u: nat)
    requires OverKnown(s) && Enabled(s, e) && t < u < |Next(s, e).sessions|
    ensures Knows(Next(s, e).sessions, t, u)
  {
    var n := |s.sessions|;
    StepKeeps(s, e, t);
    if u < n {
      StepKeeps(s, e, u);
      assert Knows(s.sessions, t, u);
    }
  }

  lemma ExplainedStep(s: State, e: Event)
    requires Sound(s) && OverKnown(s) && AllExplained(s) && Enabled(s, e) && Sound(Next(s, e))
    ensures AllExplained(Next(s, e))
  {
    var r := Next(s, e);
    forall t, i | 0 <= t < |r.sessions| && 0 <= i < |r.sessions[t].cancelled|
      ensures Explained(r.sessions, t, r.sessions[t].cancelled[i])
    {
      ExplainedAt(s, e, t, i);
    }
  }

  lemma ExplainedAt(s: State, e: Event, t: nat, i: nat)
    requires Sound(s) && OverKnown(s) && AllExplained(s) && Enabled(s, e) && Sound(Next(s, e))
    requires t < |Next(s, e).sessions| && i < |Next(s, e).sessions[t].cancelled|
    ensures Explained(Next(s, e).sessions, t, Next(s, e).sessions[t].cancelled[i])
  {
    if i < |s.sessions[t].cancelled| {
      StillExplained(s, e, t, s.sessions[t].cancelled[i]);
    } else {
      NewlyExplained(s, e, t);
    }
  }

  lemma StillExplained(s: State, e: Event, t: nat, why: Cause)
    requires Enabled(s, e) && Sound(Next(s, e)) && t < |s.sessions| && Explained(s.sessions, t, why)
    ensures |Next(s, e).sessions| >= |s.sessions| && Explained(Next(s, e).sessions, t, why)
  {
    StepKeeps(s, e, t);
    match why
    case ExitOf(u) =>
      StepKeeps(s, e, u);
      assert SoundAt(Next(s, e), u);
    case Replaced(u) => StepKeeps(s, e, u);
    case Shutdown =>
  }

  /** A cancellation made by this very step. */
  lemma NewlyExplained(s: State, e: Event, t: nat)
    requires Sound(s) && OverKnown(s) && Enabled(s, e) && Sound(Next(s, e))
    requires t < |s.sessions| && |Next(s, e).sessions[t].cancelled| > |s.sessions[t].cancelled|
    ensures var c := Next(s, e).sessions[t].cancelled; Explained(Next(s, e).sessions, t, c[|c| - 1])
  {
    match e
    case Open(id) => ReplacedExplained(s, id, t);
    case PumpExits(u) => ExitExplained(s, u, t);
    case CloseAll =>
    case RunReturns(_) =>
  }

  lemma ReplacedExplained(s: State, id: string, t: nat)
    requires Sound(s) && t < |s.sessions| && t in Holder(s.live, id)
    ensures Explained(Next(s, Open(id)).sessions, t, Replaced(|s.sessions|))
  {
    assert SoundAt(s, t);
  }

  lemma ExitExplained(s: State, u: nat, t: nat)
    requires Sound(s) && OverKnown(s) && Enabled(s, PumpExits(u))
    requires t < |s.sessions| && t in Holder(s.live, s.sessions[u].id)
    ensures Explained(Next(s, PumpExits(u)).sessions, t, ExitOf(u))
  {
    assert SoundAt(s, t) && SoundAt(s, u);
    assert u < t ==> Knows(s.sessions, u, t);
    StepKeeps(s, PumpExits(u), t);
    StepKeeps(s, PumpExits(u), u);
  }

  /** Every interleaving of opens, id reuse, pump exits and shutdowns. */
  lemma {:induction false} EveryInterleaving(es: seq<Event>)
    ensures Sound(After(es)) && OverKnown(After(es)) && AllExplained(After(es))
  {
    if es != [] {
      var s, e := After(es[..|es| - 1]), es[|es| - 1];
      EveryInterleaving(es[..|es| - 1]);
      if Enabled(s, e) {
        SoundStep(s, e);
        OverStep(s, e);
        ExplainedStep(s, e);
      }
    }
  }

  /** Once every pump has finished the registry is empty, and each session was cancelled exactly once. */
  lemma {:induction false} DrainsEmpty(es: seq<Event>)
    requires forall t :: 0 <= t < |After(es).sessions| ==> After(es).sessions[t].pump.Finished?
    ensures After(es).live == map[]
    ensures forall t :: 0 <= t < |After(es).sessions| ==> |After(es).sessions[t].cancelled| == 1
  {
    EveryInterleaving(es);
    var s := After(es);
    forall t | 0 <= t < |s.sessions| ensures !IsLive(s, t) && |s.sessions[t].cancelled| == 1 {
      assert SoundAt(s, t);
    }
    HeldAreLive(s);
  }

  lemma HeldAreLive(s: State)
    requires Sound(s)
    ensures forall id :: id in s.live ==> IsLive(s, s.live[id])
  {
  }

  /** A shutdown leaves no session uncancelled. */
  lemma {:induction false} ShutdownReachesAll(es: seq<Event>)
    ensures After(es + [CloseAll]).live == map[]
    ensures forall t :: 0 <= t < |After(es + [CloseAll]).sessions| ==>
              |After(es + [CloseAll]).sessions[t].cancelled| == 1
  {
    EveryInterleaving(es + [CloseAll]);
    var s := After(es + [CloseAll]);
    forall t | 0 <= t < |s.sessions| ensures |s.sessions[t].cancelled| == 1 { assert SoundAt(s, t); }
  }

  /** While no id is reopened before its earlier pumps have finished, only a session's own exit or a
      shutdown cancels it. */
  lemma {:induction false} WithoutOverlap(es: seq<Event>)
    requires forall t :: 0 <= t < |After(es).sessions| ==> After(es).sessions[t].over == {}
    ensures forall t, i :: 0 <= t < |After(es).sessions| && 0 <= i < |After(es).sessions[t].cancelled| ==>
              After(es).sessions[t].cancelled[i] in {ExitOf(t), Shutdown}
  {
    EveryInterleaving(es);
    var s := After(es);
    forall t, i | 0 <= t < |s.sessions| && 0 <= i < |s.sessions[t].cancelled|
      ensures s.sessions[t].cancelled[i] in {ExitOf(t), Shutdown}
    {
    }
  }

  /** What reuse adds, exactly: the exit of pump u cancels another session just when that session holds
      u's id, and then it is a newer one opened while u was unfinished. */
  lemma {:induction false} ForeignExitIff(es: seq<Event>, u: nat, t: nat)
    requires Enabled(After(es), PumpExits(u)) && t < |After(es).sessions| && t != u
    ensures After(es + [PumpExits(u)]).sessions[t].cancelled != After(es).sessions[t].cancelled <==>
            IsLive(After(es), t) && After(es).sessions[t].id == After(es).sessions[u].id
    ensures IsLive(After(es), t) && After(es).sessions[t].id == After(es).sessions[u].id ==>
              u < t && u in After(es).sessions[t].over
  {
    EveryInterleaving(es);
    var s := After(es);
    assert SoundAt(s, t) && SoundAt(s, u);
    if u < t { assert Knows(After(es).sessions, u, t); }
  }

  /** And it happens: a reopened session is cancelled, its pump still running, by the exit of the one it
      replaced. */
  lemma ReplacedExitKillsSuccessor(id: string)
    ensures var s := After([Open(id), Open(id), RunReturns(0), PumpExits(0)]);
            && s.live == map[] && |s.sessions| == 2
            && s.sessions[1].pump.Pumping? && s.sessions[1].cancelled == [ExitOf(0)]
  {
    var e1, e2, e3 := [Open(id)], [Open(id), Open(id)], [Open(id), Open(id), RunReturns(0)];
    var es := [Open(id), Open(id), RunReturns(0), PumpExits(0)];
    assert e1[..0] == [] && e2[..1] == e1 && e3[..2] == e2 && es[..3] == e3;
    var s1 := Next(Start, Open(id));
    assert After(e1) == s1;
    var s2 := Next(s1, Open(id));
    assert After(e3) == Next(s2, RunReturns(0));
  }

  // ----- the subscriber around the registry -----

  /** How often session t has been cancelled. */
  function Times(s: State, t: nat): nat {
    if t < |s.sessions| then |s.sessions[t].cancelled| else 0
  }

  function Stepped(s: State, e: Event): State {
    if Enabled(s, e) then Next(s, e) else s
  }

  lemma AfterSnoc(es: seq<Event>, i: nat)
    requires i < |es|
    ensures After(es[..i + 1]) == Stepped(After(es[..i]), es[i])
  {
    assert es[..i + 1][..i] == es[..i];
  }

  /** Whom a step cancels. */
  function Cancelled(s: State, e: Event): set<nat>
    requires Enabled(s, e)
  {
    match e
    case Open(id) => Holder(s.live, id)
    case RunReturns(_) => {}
    case PumpExits(t) => Holder(s.live, s.sessions[t].id)
    case CloseAll => s.live.Values
  }

  lemma TimesStep(s: State, e: Event, t: nat)
    requires Sound(s) && Enabled(s, e)
    ensures Times(Next(s, e), t) == Times(s, t) + if t in Cancelled(s, e) then 1 else 0
  {
  }

  /** The cancel calls are those the state records. */
  ghost predicate Counted(cancels: seq<nat>, s: State) {
    forall t: nat :: multiset(cancels)[t] == Times(s, t)
  }

  lemma CountedStep(was: seq<nat>, now: seq<nat>, s: State, e: Event)
    requires Sound(s) && Enabled(s, e) && Counted(was, s)
    requires multiset(now) == multiset(was) + multiset(Cancelled(s, e))
    ensures Counted(now, Next(s, e))
  {
    forall t: nat ensures multiset(now)[t] == Times(Next(s, e), t) { TimesStep(s, e, t); }
  }

  lemma LiveInjective(s: State)
    requires Sound(s)
    ensures Injective(s.live)
  {
  }

  /** The open callback, the goroutines it spawns and the stop function. A goroutine knows its session's id,
      not its session. */
  class Subscriber {
    const sessions: Registry
    var ids: seq<string>
    var pumps: seq<Pump>

    constructor ()
      ensures fresh(sessions) && Matches(Start)
    {
      sessions := new Registry();
      ids, pumps := [], [];
    }

    ghost predicate Matches(s: State)
      reads this, sessions
    {
      && sessions.live == s.live && |ids| == |pumps| == |s.sessions|
      && (forall t :: 0 <= t < |ids| ==> ids[t] == s.sessions[t].id && pumps[t] == s.sessions[t].pump)
      && Counted(sessions.cancels, s)
    }

    /** An open request: the registry first, then the goroutine. */
    method OnOpen(id: string, ghost s: State)
      requires Matches(s) && Sound(s)
      modifies this, sessions
      ensures Matches(Next(s, Open(id)))
    {
      ghost var was := sessions.cancels;
      sessions.Open(id, |ids|);
      CountedStep(was, sessions.cancels, s, Open(id));
      ids, pumps := ids + [id], pumps + [Pumping];
    }

    /** A goroutine's deferred close. */
    method OnExit(t: nat, ghost s: State)
      requires Matches(s) && Sound(s) && Enabled(s, PumpExits(t))
      modifies this, sessions
      ensures Matches(Next(s, PumpExits(t)))
    {
      ghost var was := sessions.cancels;
      sessions.Close(ids[t]);
      CountedStep(was, sessions.cancels, s, PumpExits(t));
      pumps := pumps[t := Finished];
    }

    /** The stop function. */
    method Stop(ghost s: State)
      requires Matches(s) && Sound(s)
      modifies this, sessions
      ensures Matches(Next(s, CloseAll))
    {
      ghost var was := sessions.cancels;
      LiveInjective(s);
      sessions.CloseAll();
      CountedStep(was, sessions.cancels, s, CloseAll);
    }

    /** One event, if it can happen. */
    method Handle(e: Event, ghost s: State)
      requires Matches(s) && Sound(s)
      modifies this, sessions
      ensures Matches(Stepped(s, e))
    {
      match e {
        case Open(id) => OnOpen(id, s);
        case RunReturns(t) => if t < |pumps| && pumps[t].Pumping? { pumps := pumps[t := Returned]; }
        case PumpExits(t) => if t < |pumps| && pumps[t].Returned? { OnExit(t, s); }
        case CloseAll => Stop(s);
      }
    }

    /** Any interleaving, played on the registry: it ends with the sessions and the cancellations that the
        lemmas speak of. */
    method Play(es: seq<Event>)
      requires Matches(Start)
      modifies this, sessions
      ensures Matches(After(es))
    {
      var i := 0;
      while i < |es|
        invariant 0 <= i <= |es| && Matches(After(es[..i]))
      {
        EveryInterleaving(es[..i]);
        AfterSnoc(es, i);
        Handle(es[i], After(es[..i]));
        i := i + 1;
      }
      assert es[..i] == es;
    }
  }
}
