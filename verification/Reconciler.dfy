/** Converging a container runtime to each published set by diffing it against the last one. Every
    runtime call may fail, and a failed call may leave anything running under its name. */
module Reconciler {
  import opened Options
  import opened Containers

  /** Containers by name. */
  type Specs = map<string, Container>

  datatype Fault = StopFault(why: string) | PullFault(image: string, why: string) | StartFault(why: string)

  /** A runtime call made on behalf of a container, and what came of it. */
  datatype Call = Stop(name: string, fault: Option<Fault>)
                | Pull(name: string, image: string, fault: Option<Fault>)
                | Start(name: string, spec: Container, fault: Option<Fault>)

  /** How the runtime answers a stop or start: fine, or an error with whatever is left running. */
  datatype Reply = Fine | Fails(why: string, left: Option<Container>)

  /** The answers one Apply would get for one name. */
  datatype Answers = Answers(stop: Reply, pull: Option<string>, start: Reply)

  type Outcomes = string -> Answers

  const AllFine: Outcomes := name => Answers(Fine, None, Fine)

  function Get(m: Specs, name: string): Option<Container> {
    if name in m then Some(m[name]) else None
  }

  function Put(m: Specs, name: string, c: Option<Container>): (r: Specs)
    ensures Get(r, name) == c && forall n :: n != name ==> Get(r, n) == Get(m, n)
  {
    match c
    case None => m - {name}
    case Some(v) => m[name := v]
  }

  // ----- what happens to one name -----

  datatype Effect = Effect(running: Option<Container>, calls: seq<Call>)

  function StopFaultOf(r: Reply): Option<Fault> { if r.Fine? then None else Some(StopFault(r.why)) }

  function AfterStop(r: Reply): Option<Container> { if r.Fine? then None else r.left }

  function AfterStart(r: Reply, c: Container): Option<Container> { if r.Fine? then Some(c) else r.left }

  function Launch(name: string, w: Container, running: Option<Container>, a: Answers): Effect {
    match a.pull
    case Some(why) => Effect(running, [Pull(name, w.image, Some(PullFault(w.image, why)))])
    case None =>
      var fault := if a.start.Fine? then None else Some(StartFault(a.start.why));
      Effect(AfterStart(a.start, w), [Pull(name, w.image, None), Start(name, w, fault)])
  }

  /** The whole treatment of a name in one Apply: a function of its previous spec, its next spec, what
      runs under it and the answers to its own calls, and of nothing else. */
  function OneName(name: string, prev: Option<Container>, next: Option<Container>,
                   running: Option<Container>, a: Answers): Effect
  {
    match (prev, next)
    case (None, None) => Effect(running, [])
    case (Some(_), None) => Effect(AfterStop(a.stop), [Stop(name, StopFaultOf(a.stop))])
    case (None, Some(w)) => Launch(name, w, running, a)
    case (Some(p), Some(w)) =>
      if ContainerEqual(p, w) then Effect(running, [])
      else
        var l := Launch(name, w, AfterStop(a.stop), a);
        Effect(l.running, [Stop(name, StopFaultOf(a.stop))] + l.calls)
  }

  // ----- one Apply, and runs of them, on values -----

  datatype State = State(desired: Specs, running: Specs)

  /** next[c.Name] = c, in publication order. */
  function ByName(cs: seq<Container>): (m: Specs) {
    if cs == [] then map[] else ByName(cs[..|cs| - 1])[cs[|cs| - 1].name := cs[|cs| - 1]]
  }

  /** A valid set is published whole, each container under its own name, and nothing else is. */
  lemma {:induction false} ByNameExact(cs: seq<Container>)
    requires forall j, k :: 0 <= j < k < |cs| ==> cs[j].name != cs[k].name
    ensures forall i :: 0 <= i < |cs| ==> cs[i].name in ByName(cs) && ByName(cs)[cs[i].name] == cs[i]
    ensures forall name :: name in ByName(cs) ==> ByName(cs)[name] in cs && ByName(cs)[name].name == name
  {
    if cs != [] { ByNameExact(cs[..|cs| - 1]); }
  }

  function EffectOn(st: State, next: Specs, o: Outcomes, name: string): Effect {
    OneName(name, Get(st.desired, name), Get(next, name), Get(st.running, name), o(name))
  }

  function Next(st: State, next: Specs, o: Outcomes): (r: State)
    ensures r.desired == next
    ensures forall name :: Get(r.running, name) == EffectOn(st, next, o, name).running
  {
    var names := st.desired.Keys + next.Keys + st.running.Keys;
    State(next, map name | name in names && EffectOn(st, next, o, name).running.Some? ::
                  EffectOn(st, next, o, name).running.value)
  }

  datatype Publication = Publication(next: Specs, outcomes: Outcomes)

  const Idle: State := State(map[], map[])

  function Run(hist: seq<Publication>): State {
    if hist == [] then Idle
    else Next(Run(hist[..|hist| - 1]), hist[|hist| - 1].next, hist[|hist| - 1].outcomes)
  }

  /** A published set as the runtime's answers find it, or nothing: invalid sets are turned away. */
  function Message(s: ContainerSet, o: Outcomes): seq<Publication> {
    if ValidSet(s) then [Publication(ByName(s.containers), o)] else []
  }

  /** The publications a stream of messages amounts to. */
  function Published(sets: seq<ContainerSet>, os: seq<Outcomes>): seq<Publication>
    requires |sets| == |os|
  {
    if sets == [] then []
    else Published(sets[..|sets| - 1], os[..|sets| - 1]) + Message(sets[|sets| - 1], os[|sets| - 1])
  }

  lemma {:induction false} RunMore(h: seq<Publication>, m: seq<Publication>)
    requires |m| <= 1
    ensures Run(h + m) == if m == [] then Run(h) else Next(Run(h), m[0].next, m[0].outcomes)
  {
    if m == [] { assert h + m == h; } else { assert (h + m)[..|h|] == h; }
  }

  lemma PublishedSnoc(sets: seq<ContainerSet>, os: seq<Outcomes>, i: nat)
    requires i < |sets| == |os|
    ensures Published(sets[..i + 1], os[..i + 1]) == Published(sets[..i], os[..i]) + Message(sets[i], os[i])
  {
    assert sets[..i + 1][..i] == sets[..i] && os[..i + 1][..i] == os[..i];
  }

  // ----- agreement -----

  predicate Faultless(calls: seq<Call>) {
    forall i :: 0 <= i < |calls| ==> calls[i].fault.None?
  }

  /** What runs under the name is what was last published for it. */
  predicate Agrees(st: State, name: string) {
    match (Get(st.desired, name), Get(st.running, name))
    case (None, None) => true
    case (Some(d), Some(r)) => SameIdentity(d, r)
    case _ => false
  }

  /** The last time the reconciler made calls for the name they all succeeded. */
  predicate Trusted(hist: seq<Publication>, name: string) {
    hist == [] ||
    var n := |hist| - 1;
    var calls := EffectOn(Run(hist[..n]), hist[n].next, hist[n].outcomes, name).calls;
    if calls == [] then Trusted(hist[..n], name) else Faultless(calls)
  }

  predicate NoEmptyEnvs(m: Specs) {
    forall k :: k in m ==> NoEmptyEnv(m[k])
  }

  lemma LaunchWorks(name: string, w: Container, running: Option<Container>, a: Answers)
    requires Faultless(Launch(name, w, running, a).calls)
    ensures Launch(name, w, running, a).running == Some(w)
  {
    var l := Launch(name, w, running, a);
    assert l.calls[|l.calls| - 1].fault.None?;
  }

  lemma FaultlessSuffix(a: seq<Call>, b: seq<Call>)
    requires Faultless(a + b)
    ensures Faultless(b)
  {
    forall i | 0 <= i < |b| ensures b[i].fault.None? { assert b[i] == (a + b)[|a| + i]; }
  }

  /** A name that was acted on without a fault runs exactly what was asked for. */
  lemma ActedOn(name: string, prev: Option<Container>, next: Option<Container>, running: Option<Container>, a: Answers)
    requires var e := OneName(name, prev, next, running, a); e.calls != [] && Faultless(e.calls)
    ensures OneName(name, prev, next, running, a).running == next
  {
    var e := OneName(name, prev, next, running, a);
    match (prev, next)
    case (Some(_), None) => assert e.calls[0].fault.None?;
    case (None, Some(w)) => LaunchWorks(name, w, running, a);
    case (Some(_), Some(w)) =>
      FaultlessSuffix([Stop(name, StopFaultOf(a.stop))], Launch(name, w, AfterStop(a.stop), a).calls);
      LaunchWorks(name, w, AfterStop(a.stop), a);
    case (None, None) =>
  }

  /** One Apply restores agreement by acting, or keeps it by not acting. */
  lemma StepAgrees(st: State, next: Specs, o: Outcomes, name: string)
    requires NoEmptyEnvs(st.desired)
    requires var calls := EffectOn(st, next, o, name).calls;
             Faultless(calls) && (calls == [] ==> Agrees(st, name))
    ensures Agrees(Next(st, next, o), name)
  {
    if EffectOn(st, next, o, name).calls != [] {
      ActedOn(name, Get(st.desired, name), Get(next, name), Get(st.running, name), o(name));
    } else if name in next && name in st.desired {
      EqualImpliesIdentity(st.desired[name], next[name]);
    }
  }

  /** Over every run, failures included: a name whose latest calls succeeded runs what was last
      published for it, however many publications have since been skipped as unchanged. */
  lemma {:induction false} TrustedAgrees(hist: seq<Publication>, name: string)
    requires forall p :: p in hist ==> NoEmptyEnvs(p.next)
    requires Trusted(hist, name)
    ensures Agrees(Run(hist), name)
  {
    if hist != [] {
      var n := |hist| - 1;
      var st := Run(hist[..n]);
      var calls := EffectOn(st, hist[n].next, hist[n].outcomes, name).calls;
      if calls == [] { TrustedAgrees(hist[..n], name); }
      StepAgrees(st, hist[n].next, hist[n].outcomes, name);
    }
  }

  lemma FineIsFaultless(st: State, next: Specs, name: string)
    ensures Faultless(EffectOn(st, next, AllFine, name).calls)
  {
  }

  lemma {:induction false} FineIsTrusted(hist: seq<Publication>, name: string)
    requires forall p :: p in hist ==> p.outcomes == AllFine
    ensures Trusted(hist, name)
  {
    if hist != [] {
      var n := |hist| - 1;
      FineIsTrusted(hist[..n], name);
      FineIsFaultless(Run(hist[..n]), hist[n].next, name);
    }
  }

  /** On a runtime that never fails, exactly the last published names run, each with the identity last
      published for it. */
  lemma {:induction false} Converges(hist: seq<Publication>)
    requires forall p :: p in hist ==> p.outcomes == AllFine && NoEmptyEnvs(p.next)
    ensures Run(hist).running.Keys == Run(hist).desired.Keys
    ensures forall name :: name in Run(hist).running ==> SameIdentity(Run(hist).desired[name], Run(hist).running[name])
  {
    forall name ensures Agrees(Run(hist), name) {
      FineIsTrusted(hist, name);
      TrustedAgrees(hist, name);
    }
    var st := Run(hist);
    forall name ensures name in st.running <==> name in st.desired { assert Agrees(st, name); }
    forall name | name in st.running ensures SameIdentity(st.desired[name], st.running[name]) {
      assert Agrees(st, name);
    }
  }

  /** Publishing the same set again makes no call and changes nothing, whatever failed before: a failed
      pull or start is not retried. */
  lemma RepublishDoesNothing(st: State, o: Outcomes)
    ensures forall name :: EffectOn(st, st.desired, o, name).calls == []
    ensures Next(st, st.desired, o) == st
  {
    forall name ensures EffectOn(st, st.desired, o, name) == Effect(Get(st.running, name), []) {
    }
    var r := Next(st, st.desired, o);
    SameByGet(r.running, st.running);
  }

  // ----- what a failure leaves -----

  /** Published, but nothing runs under the name. */
  predicate Down(st: State, name: string) {
    name in st.desired && name !in st.running
  }

  /** The reconciler takes the name for unchanged and skips it. */
  predicate Skipped(prev: Specs, next: Specs, name: string) {
    name in prev && name in next && ContainerEqual(prev[name], next[name])
  }

  /** Exactly how a published name comes to be down: it was and is skipped, or its start failed and left
      nothing, or its pull failed with nothing running, be it new or stopped for this very restart. */
  lemma DownAfterIff(st: State, next: Specs, o: Outcomes, name: string)
    requires name in next
    ensures var a := o(name);
            Down(Next(st, next, o), name) <==>
            if Skipped(st.desired, next, name) then name !in st.running
            else if a.pull.None? then a.start.Fails? && a.start.left.None?
            else if name in st.desired then a.stop.Fine? || a.stop.left.None?
            else name !in st.running
  {
    assert Get(Next(st, next, o).running, name) == EffectOn(st, next, o, name).running;
  }

  /** However it came to be down, it stays down through any number of identical publications. */
  lemma {:induction false} FailedStartIsNotRetried(st: State, again: seq<Outcomes>, name: string)
    requires Down(st, name)
    ensures Down(Repeat(st, again), name) && Repeat(st, again) == st
  {
    if again != [] {
      FailedStartIsNotRetried(st, again[..|again| - 1], name);
      RepublishDoesNothing(st, again[|again| - 1]);
    }
  }

  /** On a runtime that has recovered, the next publication brings it back exactly when it drops the
      name or changes it in the eyes of the equality test; otherwise the name stays down. */
  lemma {:induction false} RevivedIff(st: State, next: Specs, name: string)
    requires Down(st, name)
    ensures Agrees(Next(st, next, AllFine), name) <==> !Skipped(st.desired, next, name)
    ensures Down(Next(st, next, AllFine), name) <==> Skipped(st.desired, next, name)
  {
    FineRuns(st, next, name);
  }

  /** On a runtime that never fails, a name runs what is asked for, unless it is left alone. */
  lemma {:induction false} FineRuns(st: State, next: Specs, name: string)
    ensures Get(Next(st, next, AllFine).running, name) ==
            if Skipped(st.desired, next, name) || (name !in st.desired && name !in next) then Get(st.running, name)
            else Get(next, name)
  {
    assert Get(Next(st, next, AllFine).running, name) == EffectOn(st, next, AllFine, name).running;
  }

  function LastOf(first: Specs, nexts: seq<Specs>): Specs {
    if nexts == [] then first else nexts[|nexts| - 1]
  }

  /** Publications on a runtime that never fails. */
  function Later(st: State, nexts: seq<Specs>): (r: State)
    ensures r.desired == LastOf(st.desired, nexts)
  {
    if nexts == [] then st else Next(Later(st, nexts[..|nexts| - 1]), nexts[|nexts| - 1], AllFine)
  }

  /** Every publication looks unchanged next to the one before it. */
  predicate AllSkipped(first: Specs, nexts: seq<Specs>, name: string) {
    nexts == [] ||
    var n := |nexts| - 1;
    AllSkipped(first, nexts[..n], name) && Skipped(LastOf(first, nexts[..n]), nexts[n], name)
  }

  lemma FineKeepsUp(st: State, next: Specs, name: string)
    requires name in st.desired <==> name in st.running
    ensures name in Next(st, next, AllFine).desired <==> name in Next(st, next, AllFine).running
  {
    assert Get(Next(st, next, AllFine).running, name) == EffectOn(st, next, AllFine, name).running;
  }

  /** Over every later run without failures the name is down exactly as long as every publication so far
      was taken for unchanged; from the first that was not, it runs if and only if it is published. */
  lemma {:induction false} DownWhileSkippedIff(st: State, nexts: seq<Specs>, name: string)
    requires Down(st, name)
    ensures Down(Later(st, nexts), name) <==> AllSkipped(st.desired, nexts, name)
    ensures !AllSkipped(st.desired, nexts, name) ==>
              (name in Later(st, nexts).desired <==> name in Later(st, nexts).running)
  {
    if nexts != [] {
      var n := |nexts| - 1;
      DownWhileSkippedIff(st, nexts[..n], name);
      if AllSkipped(st.desired, nexts[..n], name) {
        RevivedIff(Later(st, nexts[..n]), nexts[n], name);
      } else {
        FineKeepsUp(Later(st, nexts[..n]), nexts[n], name);
      }
    }
  }

  /** And then it runs what was last published for it, for good. */
  lemma {:induction false} AgreesAgainIff(st: State, nexts: seq<Specs>, name: string)
    requires Down(st, name) && NoEmptyEnvs(st.desired) && forall m :: m in nexts ==> NoEmptyEnvs(m)
    ensures Agrees(Later(st, nexts), name) <==> !AllSkipped(st.desired, nexts, name)
  {
    if nexts != [] {
      var n := |nexts| - 1;
      var s := Later(st, nexts[..n]);
      AgreesAgainIff(st, nexts[..n], name);
      if AllSkipped(st.desired, nexts[..n], name) {
        DownWhileSkippedIff(st, nexts[..n], name);
        RevivedIff(s, nexts[n], name);
      } else {
        assert s.desired in nexts;
        FineIsFaultless(s, nexts[n], name);
        StepAgrees(s, nexts[n], AllFine, name);
      }
    }
  }

  // ----- a restarted agent -----

  ghost predicate PublishedIn(nexts: seq<Specs>, name: string) {
    exists i :: 0 <= i < |nexts| && name in nexts[i]
  }

  /** An agent that starts over what an earlier one left running, and never asks the runtime what that is:
      on a runtime without failures a name agrees exactly when nothing ran under it at the start, or some
      set since has published it. What is never published again is never stopped. */
  lemma {:induction false} RestartAgreesIff(left: Specs, nexts: seq<Specs>, name: string)
    requires forall m :: m in nexts ==> NoEmptyEnvs(m)
    ensures Agrees(Later(State(map[], left), nexts), name) <==> name !in left || PublishedIn(nexts, name)
    ensures !PublishedIn(nexts, name) ==> Get(Later(State(map[], left), nexts).running, name) == Get(left, name)
  {
    if nexts != [] {
      var n := |nexts| - 1;
      var init := nexts[..n];
      var s := Later(State(map[], left), init);
      RestartAgreesIff(left, init, name);
      PublishedSnocIff(nexts, name);
      RestartStep(s, nexts[n], name);
      assert init != [] ==> s.desired in nexts;
    }
  }

  /** A container that was dropped while no agent ran: published sets without it never stop it. */
  lemma {:induction false} DroppedMeanwhile(c: Container, nexts: seq<Specs>)
    requires forall i :: 0 <= i < |nexts| ==> "x" !in nexts[i] && NoEmptyEnvs(nexts[i])
    ensures Get(Later(State(map[], map["x" := c]), nexts).running, "x") == Some(c)
  {
    RestartAgreesIff(map["x" := c], nexts, "x");
  }

  lemma {:induction false} PublishedSnocIff(nexts: seq<Specs>, name: string)
    requires nexts != []
    ensures var n := |nexts| - 1;
            PublishedIn(nexts, name) <==> PublishedIn(nexts[..n], name) || name in nexts[n]
  {
    var n := |nexts| - 1;
    if i :| 0 <= i < n && name in nexts[i] { assert name in nexts[..n][i]; }
  }

  lemma {:induction false} RestartStep(s: State, next: Specs, name: string)
    ensures NoEmptyEnvs(s.desired) && Agrees(s, name) ==> Agrees(Next(s, next, AllFine), name)
    ensures name !in s.desired && name in next ==> Agrees(Next(s, next, AllFine), name)
    ensures name !in s.desired && name !in next ==> Get(Next(s, next, AllFine).running, name) == Get(s.running, name)
  {
    FineRuns(s, next, name);
    FineIsFaultless(s, next, name);
    if NoEmptyEnvs(s.desired) && Agrees(s, name) { StepAgrees(s, next, AllFine, name); }
  }

  /** Both ways down: a new container whose pull fails once, and a running one that is changed, stopped
      and then not started. Neither comes back when the set is published again to a runtime that works. */
  lemma FailuresThatLast(c: Container, d: Container, why: string)
    requires !ContainerEqual(c, d)
    ensures var next := map["x" := d];
            var pulled := Next(Idle, next, _ => Answers(Fine, Some(why), Fine));
            Down(pulled, "x") && Down(Next(pulled, next, AllFine), "x")
    ensures var next := map["x" := d];
            var before := State(map["x" := c], map["x" := c]);
            var restarted := Next(before, next, _ => Answers(Fine, None, Fails(why, None)));
            Down(restarted, "x") && Down(Next(restarted, next, AllFine), "x")
  {
    var next := map["x" := d];
    var pullFails: Outcomes := _ => Answers(Fine, Some(why), Fine);
    var startFails: Outcomes := _ => Answers(Fine, None, Fails(why, None));
    var before := State(map["x" := c], map["x" := c]);
    DownAfterIff(Idle, next, pullFails, "x");
    RepublishDoesNothing(Next(Idle, next, pullFails), AllFine);
    DownAfterIff(before, next, startFails, "x");
    RepublishDoesNothing(Next(before, next, startFails), AllFine);
  }

  function Repeat(st: State, again: seq<Outcomes>): State {
    if again == [] then st
    else
      var s := Repeat(st, again[..|again| - 1]);
      Next(s, s.desired, again[|again| - 1])
  }

  // ----- the reconciler itself -----

  /** The calls made for one name, in order. */
  function For(name: string, log: seq<Call>): seq<Call> {
    if log == [] then []
    else For(name, log[..|log| - 1]) + if log[|log| - 1].name == name then [log[|log| - 1]] else []
  }

  lemma {:induction false} ForAppend(name: string, a: seq<Call>, b: seq<Call>)
    ensures For(name, a + b) == For(name, a) + For(name, b)
  {
    if b == [] {
      assert a + b == a;
    } else {
      ForAppend(name, a, b[..|b| - 1]);
      assert (a + b)[..|a + b| - 1] == a + b[..|b| - 1];
    }
  }

  /** The chronologically first fault, if any. */
  function FirstFault(log: seq<Call>): Option<Fault> {
    if log == [] then None else if log[0].fault.Some? then log[0].fault else FirstFault(log[1..])
  }

  lemma {:induction false} FirstFaultIff(log: seq<Call>)
    ensures FirstFault(log).None? <==> Faultless(log)
    ensures FirstFault(log).Some? ==>
              exists i :: 0 <= i < |log| && log[i].fault == FirstFault(log) && Faultless(log[..i])
  {
    if log != [] && log[0].fault.None? {
      FirstFaultIff(log[1..]);
      if FirstFault(log).Some? {
        var i :| 0 <= i < |log[1..]| && log[1..][i].fault == FirstFault(log) && Faultless(log[1..][..i]);
        var before := log[..i + 1];
        forall j | 0 <= j < |before| ensures before[j].fault.None? {
          if j > 0 { assert before[j] == log[1..][..i][j - 1]; }
        }
      }
    }
  }

  lemma {:induction false} FirstFaultSnoc(log: seq<Call>, c: Call)
    ensures FirstFault(log + [c]) == if FirstFault(log).Some? then FirstFault(log) else c.fault
  {
    if log != [] {
      FirstFaultSnoc(log[1..], c);
      assert (log + [c])[1..] == log[1..] + [c];
    }
  }

  function OrElse(first: Option<Fault>, later: Option<Fault>): Option<Fault> {
    if first.Some? then first else later
  }

  lemma {:induction false} FirstFaultAppend(a: seq<Call>, b: seq<Call>)
    ensures FirstFault(a + b) == OrElse(FirstFault(a), FirstFault(b))
  {
    if a == [] {
      assert a + b == b;
    } else {
      FirstFaultAppend(a[1..], b);
      assert (a + b)[1..] == a[1..] + b;
    }
  }

  ghost predicate Settled(st: State, next: Specs, o: Outcomes, running: Specs, made: seq<Call>, name: string) {
    EffectOn(st, next, o, name) == Effect(Get(running, name), For(name, made))
  }

  ghost predicate Untouched(st: State, running: Specs, made: seq<Call>, name: string) {
    Get(running, name) == Get(st.running, name) && For(name, made) == []
  }

  /** So far exactly the names in `done` have been dealt with. */
  ghost predicate Progress(st: State, next: Specs, o: Outcomes, running: Specs, made: seq<Call>, done: set<string>) {
    forall name ::
      if name in done then Settled(st, next, o, running, made, name)
      else Untouched(st, running, made, name)
  }

  lemma {:induction false} ForOwn(name: string, calls: seq<Call>, who: string)
    requires forall i :: 0 <= i < |calls| ==> calls[i].name == who
    ensures For(name, calls) == if name == who then calls else []
  {
    if calls != [] { ForOwn(name, calls[..|calls| - 1], who); }
  }

  lemma CallsAreOwn(name: string, prev: Option<Container>, next: Option<Container>, running: Option<Container>,
                    a: Answers)
    ensures var calls := OneName(name, prev, next, running, a).calls;
            forall i :: 0 <= i < |calls| ==> calls[i].name == name
  {
  }

  lemma {:induction false} MoreFor(name: string, made: seq<Call>, calls: seq<Call>, who: string)
    requires forall i :: 0 <= i < |calls| ==> calls[i].name == who
    ensures For(name, made + calls) == For(name, made) + if name == who then calls else []
  {
    ForAppend(name, made, calls);
    ForOwn(name, calls, who);
  }

  lemma OneMore(st: State, next: Specs, o: Outcomes, running: Specs, made: seq<Call>, done: set<string>, who: string)
    requires Progress(st, next, o, running, made, done) && who !in done
    ensures var e := EffectOn(st, next, o, who);
            Progress(st, next, o, Put(running, who, e.running), made + e.calls, done + {who})
  {
    var e := EffectOn(st, next, o, who);
    CallsAreOwn(who, Get(st.desired, who), Get(next, who), Get(st.running, who), o(who));
    OneMoreBy(st, next, o, running, made, done, who, e);
  }

  lemma OneMoreBy(st: State, next: Specs, o: Outcomes, running: Specs, made: seq<Call>, done: set<string>,
                  who: string, e: Effect)
    requires Progress(st, next, o, running, made, done) && who !in done
    requires e == EffectOn(st, next, o, who) && forall i :: 0 <= i < |e.calls| ==> e.calls[i].name == who
    ensures Progress(st, next, o, Put(running, who, e.running), made + e.calls, done + {who})
  {
    var running', made' := Put(running, who, e.running), made + e.calls;
    MoreFor(who, made, e.calls, who);
    forall name | name != who
      ensures if name in done + {who} then Settled(st, next, o, running', made', name)
              else Untouched(st, running', made', name)
    {
      MoreFor(name, made, e.calls, who);
    }
  }

  lemma {:induction false} AllSettled(st: State, next: Specs, o: Outcomes, running: Specs, made: seq<Call>,
                                      done: set<string>)
    requires Progress(st, next, o, running, made, done) && done == st.desired.Keys + next.Keys
    ensures State(next, running) == Next(st, next, o)
    ensures forall name :: For(name, made) == EffectOn(st, next, o, name).calls
  {
    forall name ensures Settled(st, next, o, running, made, name) {
    }
    var r := Next(st, next, o).running;
    forall name ensures Get(r, name) == Get(running, name) {
      assert Settled(st, next, o, running, made, name);
    }
    SameByGet(r, running);
    forall name ensures For(name, made) == EffectOn(st, next, o, name).calls {
      assert Settled(st, next, o, running, made, name);
    }
  }

  lemma SameByGet(a: Specs, b: Specs)
    requires forall name :: Get(a, name) == Get(b, name)
    ensures a == b
  {
    forall name ensures name in a <==> name in b { assert Get(a, name) == Get(b, name); }
    forall name | name in a ensures a[name] == b[name] { assert Get(a, name) == Get(b, name); }
  }

  lemma PutSame(m: Specs, name: string)
    ensures Put(m, name, Get(m, name)) == m
  {
  }

  lemma PutTwice(m: Specs, name: string, a: Option<Container>, b: Option<Container>)
    ensures Put(Put(m, name, a), name, b) == Put(m, name, b)
  {
  }

  lemma SuffixGrows(log: seq<Call>, mark: nat, calls: seq<Call>)
    requires mark <= |log|
    ensures (log + calls)[mark..] == log[mark..] + calls
  {
  }

  lemma Proceed(st: State, next: Specs, o: Outcomes, running: Specs,
                log: seq<Call>, mark: nat, todo: set<string>, name: string)
    requires mark <= |log| && name in todo && todo <= st.desired.Keys + next.Keys
    requires Progress(st, next, o, running, log[mark..], st.desired.Keys + next.Keys - todo)
    ensures var e := OneName(name, Get(st.desired, name), Get(next, name), Get(running, name), o(name));
            && FirstFault((log + e.calls)[mark..]) == OrElse(FirstFault(log[mark..]), FirstFault(e.calls))
            && Progress(st, next, o, Put(running, name, e.running), (log + e.calls)[mark..],
                        st.desired.Keys + next.Keys - (todo - {name}))
  {
    var e := EffectOn(st, next, o, name);
    OneMore(st, next, o, running, log[mark..], st.desired.Keys + next.Keys - todo, name);
    SuffixGrows(log, mark, e.calls);
    FirstFaultAppend(log[mark..], e.calls);
  }

  lemma StopThenLaunch(name: string, want: Container, a: Answers)
    ensures var l := Launch(name, want, AfterStop(a.stop), a);
            FirstFault([Stop(name, StopFaultOf(a.stop))] + l.calls) == OrElse(StopFaultOf(a.stop), FirstFault(l.calls))
  {
    var stop := Stop(name, StopFaultOf(a.stop));
    FirstFaultAppend([stop], Launch(name, want, AfterStop(a.stop), a).calls);
    assert FirstFault([stop]) == stop.fault;
  }

  /** The runtime: what runs under each name, and every call it has received. */
  class Runtime {
    var running: Specs
    var log: seq<Call>

    constructor ()
      ensures running == map[] && log == []
    {
      running, log := map[], [];
    }

    method StopContainer(name: string, r: Reply) returns (fault: Option<Fault>)
      modifies this
      ensures fault == StopFaultOf(r)
      ensures running == Put(old(running), name, AfterStop(r)) && log == old(log) + [Stop(name, fault)]
    {
      fault := StopFaultOf(r);
      running := Put(running, name, AfterStop(r));
      log := log + [Stop(name, fault)];
    }

    method PullImage(name: string, image: string, r: Option<string>) returns (fault: Option<Fault>)
      modifies this`log
      ensures fault == if r.None? then None else Some(PullFault(image, r.value))
      ensures log == old(log) + [Pull(name, image, fault)]
    {
      fault := if r.None? then None else Some(PullFault(image, r.value));
      log := log + [Pull(name, image, fault)];
    }

    method StartContainer(name: string, c: Container, r: Reply) returns (fault: Option<Fault>)
      modifies this
      ensures fault == if r.Fine? then None else Some(StartFault(r.why))
      ensures running == Put(old(running), name, AfterStart(r, c)) && log == old(log) + [Start(name, c, fault)]
    {
      fault := if r.Fine? then None else Some(StartFault(r.why));
      running := Put(running, name, AfterStart(r, c));
      log := log + [Start(name, c, fault)];
    }
  }

  datatype ApplyResult = InvalidSet | Applied(first: Option<Fault>)

  class Agent {
    const runtime: Runtime
    var desired: Specs

    constructor (rt: Runtime)
      ensures runtime == rt && desired == map[]
    {
      runtime, desired := rt, map[];
    }

    method PullAndStart(name: string, want: Container, a: Answers, first: Option<Fault>) returns (r: Option<Fault>)
      modifies runtime
      ensures var l := Launch(name, want, Get(old(runtime.running), name), a);
              && runtime.running == Put(old(runtime.running), name, l.running)
              && runtime.log == old(runtime.log) + l.calls
              && r == OrElse(first, FirstFault(l.calls))
    {
      PutSame(runtime.running, name);
      var fault := runtime.PullImage(name, want.image, a.pull);
      if fault.Some? {
        return OrElse(first, fault);
      }
      fault := runtime.StartContainer(name, want, a.start);
      FirstFaultSnoc([Pull(name, want.image, None)], Start(name, want, fault));
      r := OrElse(first, fault);
    }

    /** Stop what was there, then launch. */
    method Restart(name: string, want: Container, a: Answers, first: Option<Fault>) returns (r: Option<Fault>)
      requires name in desired
      modifies runtime
      ensures var l := Launch(name, want, AfterStop(a.stop), a);
              && runtime.running == Put(old(runtime.running), name, l.running)
              && runtime.log == old(runtime.log) + ([Stop(name, StopFaultOf(a.stop))] + l.calls)
              && r == OrElse(OrElse(first, StopFaultOf(a.stop)), FirstFault(l.calls))
    {
      var fault := runtime.StopContainer(name, a.stop);
      r := PullAndStart(name, want, a, OrElse(first, fault));
      PutTwice(old(runtime.running), name, AfterStop(a.stop), Launch(name, want, AfterStop(a.stop), a).running);
    }

    /** The loop body for one name of the new set. */
    method Converge(name: string, want: Container, a: Answers, first: Option<Fault>) returns (r: Option<Fault>)
      modifies runtime
      ensures var e := OneName(name, Get(desired, name), Some(want), Get(old(runtime.running), name), a);
              && runtime.running == Put(old(runtime.running), name, e.running)
              && runtime.log == old(runtime.log) + e.calls
              && r == OrElse(first, FirstFault(e.calls))
    {
      if name !in desired {
        r := PullAndStart(name, want, a, first);
      } else if ContainerEqual(desired[name], want) {
        PutSame(runtime.running, name);
        r := first;
      } else {
        StopThenLaunch(name, want, a);
        r := Restart(name, want, a, first);
      }
    }

    /** Where an Apply stands: the calls from `mark` on have dealt with every name but those in `todo`. */
    ghost predicate Standing(st: State, next: Specs, o: Outcomes, mark: nat, todo: set<string>, first: Option<Fault>)
      reads this, runtime
    {
      && st.desired == desired && mark <= |runtime.log| && first == FirstFault(runtime.log[mark..])
      && Progress(st, next, o, runtime.running, runtime.log[mark..], desired.Keys + next.Keys - todo)
    }

    /** Drops first. */
    method StopDropped(next: Specs, o: Outcomes, ghost st: State) returns (first: Option<Fault>)
      requires st == State(desired, runtime.running)
      modifies runtime
      ensures old(runtime.log) <= runtime.log
      ensures Standing(st, next, o, |old(runtime.log)|, next.Keys, first)
    {
      first := None;
      var todo := desired.Keys - next.Keys;
      assert runtime.log[|runtime.log|..] == [];
      assert desired.Keys + next.Keys - (next.Keys + todo) == {};
      while todo != {}
        invariant todo <= desired.Keys - next.Keys && old(runtime.log) <= runtime.log
        invariant Standing(st, next, o, |old(runtime.log)|, next.Keys + todo, first)
        decreases todo
      {
        var name :| name in todo;
        Proceed(st, next, o, runtime.running, runtime.log, |old(runtime.log)|, next.Keys + todo, name);
        assert next.Keys + todo - {name} == next.Keys + (todo - {name});
        var fault := runtime.StopContainer(name, o(name).stop);
        assert FirstFault([Stop(name, fault)]) == fault;
        first, todo := OrElse(first, fault), todo - {name};
      }
      assert next.Keys + todo == next.Keys;
    }

    /** Then every name of the new set. */
    method ConvergeAll(next: Specs, o: Outcomes, soFar: Option<Fault>, ghost st: State, ghost mark: nat)
      returns (first: Option<Fault>)
      requires Standing(st, next, o, mark, next.Keys, soFar)
      modifies runtime
      ensures old(runtime.log) <= runtime.log
      ensures Standing(st, next, o, mark, {}, first)
    {
      first := soFar;
      var todo := next.Keys;
      while todo != {}
        invariant todo <= next.Keys && old(runtime.log) <= runtime.log
        invariant Standing(st, next, o, mark, todo, first)
        decreases todo
      {
        var name :| name in todo;
        Proceed(st, next, o, runtime.running, runtime.log, mark, todo, name);
        first := Converge(name, next[name], o(name), first);
        todo := todo - {name};
      }
    }

    /** One reconciliation. For every name, what then runs under it and the calls made for it are given
        by that name alone; the error is the first one in time; neither depends on the order in which
        the maps are walked, which is left open here. */
    method Apply(s: ContainerSet, o: Outcomes) returns (r: ApplyResult)
      modifies this, runtime
      ensures old(runtime.log) <= runtime.log
      ensures !ValidSet(s) ==> r == InvalidSet && unchanged(this) && unchanged(runtime)
      ensures ValidSet(s) ==>
                var before, next := old(State(desired, runtime.running)), ByName(s.containers);
                var made := runtime.log[|old(runtime.log)|..];
                && State(desired, runtime.running) == Next(before, next, o)
                && (forall name :: For(name, made) == EffectOn(before, next, o, name).calls)
                && r == Applied(FirstFault(made))
    {
      if !ValidSet(s) { return InvalidSet; }
      var next := ByName(s.containers);
      ghost var st, mark := State(desired, runtime.running), |runtime.log|;
      var first := StopDropped(next, o, st);
      first := ConvergeAll(next, o, first, st, mark);
      assert desired.Keys + next.Keys - {} == desired.Keys + next.Keys;
      AllSettled(st, next, o, runtime.running, runtime.log[mark..], desired.Keys + next.Keys);
      desired := next;
      r := Applied(first);
    }

    method HandleMessage(s: ContainerSet, o: Outcomes, ghost h: seq<Publication>)
      requires State(desired, runtime.running) == Run(h)
      modifies this, runtime
      ensures State(desired, runtime.running) == Run(h + Message(s, o))
    {
      var r := Apply(s, o);
      RunMore(h, Message(s, o));
    }

    /** A stream of published sets, from a start with nothing running: the runs the lemmas speak of. */
    method HandleMessages(sets: seq<ContainerSet>, os: seq<Outcomes>)
      requires |sets| == |os| && State(desired, runtime.running) == Idle
      modifies this, runtime
      ensures State(desired, runtime.running) == Run(Published(sets, os))
    {
      var i := 0;
      while i < |sets|
        invariant 0 <= i <= |sets|
        invariant State(desired, runtime.running) == Run(Published(sets[..i], os[..i]))
      {
        HandleMessage(sets[i], os[i], Published(sets[..i], os[..i]));
        PublishedSnoc(sets, os, i);
        i := i + 1;
      }
      assert sets[..i] == sets && os[..i] == os;
    }
  }
}
