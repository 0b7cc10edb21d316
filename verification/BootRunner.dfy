/** First-boot provisioning over whole machine lives: reboots, failing passes and power loss between
    any two effects. What pulls, scripts and the file system answer, and when power fails, are
    inputs; checking whether the sentinel exists is taken to answer truthfully. */
module BootRunner {
  import opened Text
  import opened BootConfig

  /** What the machine was told to do and how it went, as an outside observer would log it. */
  datatype Event = PullStarted | PullEnded(ok: bool) | ScriptStarted | ScriptEnded(ok: bool) | Stamped

  /** Which pull hooks are wired. */
  datatype Wiring = Wiring(cloner: bool, puller: bool)

  /** How the outside world answers during one pass. Creating the sentinel can leave the file behind
      even when the write then reports an error. */
  datatype Answers = Answers(workDir: bool, pull: bool, script: bool, stamped: bool, stampError: bool)

  /** One start of the agent; `fuse` is the number of events before power is lost. */
  datatype Boot = Boot(cfg: Config, wiring: Wiring, answers: Answers, fuse: nat)

  datatype Exit = Done | Error | PowerLoss

  predicate WantsPull(c: Config) { c.kind != "" && c.kind != "none" }

  predicate CanPull(c: Config, w: Wiring) {
    (c.kind == "git" && w.cloner) || (c.kind == "oci" && w.puller)
  }

  predicate WantsScript(c: Config) { !Blank(c.script) }

  // ----- the events of an undisturbed pass -----

  function StampEvents(a: Answers): seq<Event> {
    if a.stamped then [Stamped] else []
  }

  function ScriptEvents(c: Config, a: Answers): seq<Event> {
    if !WantsScript(c) then StampEvents(a)
    else [ScriptStarted, ScriptEnded(a.script)] + if a.script then StampEvents(a) else []
  }

  function PullEvents(b: Boot): seq<Event> {
    [PullStarted, PullEnded(b.answers.pull)] + if b.answers.pull then ScriptEvents(b.cfg, b.answers) else []
  }

  function Plan(b: Boot): seq<Event> {
    if IsEmpty(b.cfg) then StampEvents(b.answers)
    else if !b.answers.workDir then []
    else if !WantsPull(b.cfg) then ScriptEvents(b.cfg, b.answers)
    else if !CanPull(b.cfg, b.wiring) then []
    else PullEvents(b)
  }

  function Cut(evs: seq<Event>, n: nat): seq<Event> {
    if |evs| <= n then evs else evs[..n]
  }

  /** The part of a pass that happens. */
  function Events(sentinel: bool, b: Boot): seq<Event> {
    if sentinel then [] else Cut(Plan(b), b.fuse)
  }

  /** The start gets as far as stamping: its plan ends in a stamp and power lasts. */
  predicate Stamps(b: Boot) {
    Plan(b) != [] && Plan(b)[|Plan(b)| - 1] == Stamped && |Plan(b)| <= b.fuse
  }

  /** What a pass with these events reports: power loss if it is cut off, success if it ends in a stamp
      that reports none, an error otherwise. */
  function Result(evs: seq<Event>, a: Answers, power: nat): Exit {
    if |evs| > power then PowerLoss
    else if evs != [] && evs[|evs| - 1] == Stamped && !a.stampError then Done
    else Error
  }

  function ExitOf(sentinel: bool, b: Boot): Exit {
    if sentinel then Done else Result(Plan(b), b.answers, b.fuse)
  }

  /** Success means provisioned, and a pass that stamped reports success unless stamping itself reported
      an error: only then does a failure leave a sentinel behind. */
  lemma {:induction false} FailureStampsIff(b: Boot)
    ensures ExitOf(false, b).Done? ==> Stamps(b)
    ensures Stamps(b) ==> (ExitOf(false, b).Error? <==> b.answers.stampError)
    ensures !Stamps(b) ==> !ExitOf(false, b).Done?
  {
  }

  /** Such a failure is final: the retry with the same or any other request does nothing and succeeds. */
  lemma {:induction false} FailedStampIsFinal(retry: Boot)
    ensures var a := Answers(true, true, true, true, true);
            var b := Boot(Config("", "", "", "make"), Wiring(true, true), a, 9);
            && ExitOf(false, b).Error? && SentinelAfter([b])
            && EventsOf([b, retry], 1) == [] && ExitOf(SentinelAfter([b]), retry).Done?
  {
    var b := Boot(Config("", "", "", "make"), Wiring(true, true), Answers(true, true, true, true, true), 9);
    assert !IsSpace(b.cfg.script[0]) && !Blank(b.cfg.script);
    assert Plan(b) == [ScriptStarted, ScriptEnded(true), Stamped];
    assert Stamps(b) && [b, retry][..1] == [b];
  }

  // ----- lives -----

  /** Some element passes the test, looking at the last one last. */
  predicate Any<T>(xs: seq<T>, test: T -> bool) {
    xs != [] && (Any(xs[..|xs| - 1], test) || test(xs[|xs| - 1]))
  }

  lemma {:induction false} AnyIff<T>(xs: seq<T>, test: T -> bool)
    ensures Any(xs, test) <==> exists i :: 0 <= i < |xs| && test(xs[i])
  {
    if xs != [] {
      var init := xs[..|xs| - 1];
      AnyIff(init, test);
      if i :| 0 <= i < |init| && test(xs[i]) { assert test(init[i]); }
    }
  }

  /** A start leaves the sentinel there, or stamps it. */
  predicate SentinelAfter(boots: seq<Boot>) {
    Any(boots, Stamps)
  }

  /** What start i of a life does, from a machine without a sentinel. */
  function EventsOf(boots: seq<Boot>, i: nat): seq<Event>
    requires i < |boots|
  {
    Events(SentinelAfter(boots[..i]), boots[i])
  }

  lemma {:induction false} LifeSnoc(boots: seq<Boot>, i: nat)
    requires i < |boots|
    ensures SentinelAfter(boots[..i + 1]) <==> SentinelAfter(boots[..i]) || Stamps(boots[i])
    ensures AllEvents(boots[..i + 1]) == AllEvents(boots[..i]) + Events(SentinelAfter(boots[..i]), boots[i])
  {
    assert boots[..i + 1][..i] == boots[..i];
  }

  /** The log of a whole life. */
  function AllEvents(boots: seq<Boot>): seq<Event> {
    if boots == [] then []
    else
      var n := |boots| - 1;
      AllEvents(boots[..n]) + EventsOf(boots, n)
  }

  /** Everything requested was pulled and run to success, in that order, before the stamp. */
  predicate Provisioned(c: Config, evs: seq<Event>) {
    || (IsEmpty(c) && evs == [Stamped])
    || (!IsEmpty(c) && evs == (if WantsPull(c) then [PullStarted, PullEnded(true)] else []) +
                              (if WantsScript(c) then [ScriptStarted, ScriptEnded(true)] else []) + [Stamped])
  }

  lemma StampMeansProvisioned(b: Boot)
    ensures Stamped in Events(false, b) <==> Stamps(b)
    ensures Stamps(b) ==> Provisioned(b.cfg, Events(false, b))
    ensures Stamps(b) ==> !WantsPull(b.cfg) || CanPull(b.cfg, b.wiring)
  {
  }

  lemma {:induction false} SentinelIffStamped(boots: seq<Boot>)
    ensures SentinelAfter(boots) <==> exists i :: 0 <= i < |boots| && Stamps(boots[i])
  {
    AnyIff(boots, Stamps);
  }

  lemma {:induction false} FirstTrue(marks: seq<bool>) returns (i: nat)
    requires true in marks
    ensures i < |marks| && marks[i] && forall j :: 0 <= j < i ==> !marks[j]
  {
    if marks[0] {
      i := 0;
    } else {
      i := FirstTrue(marks[1..]);
      i := i + 1;
    }
  }

  lemma SentinelAt(boots: seq<Boot>, i: nat, j: nat)
    requires i < |boots| && Stamps(boots[i]) && forall k :: 0 <= k < i ==> !Stamps(boots[k])
    requires j < |boots|
    ensures SentinelAfter(boots[..j]) <==> i < j
  {
    SentinelIffStamped(boots[..j]);
    if i < j { assert Stamps(boots[..j][i]); }
  }

  lemma Unstamped(boots: seq<Boot>, j: nat)
    requires j < |boots| && !SentinelAfter(boots[..j])
    ensures EventsOf(boots, j) == Events(false, boots[j])
    ensures Stamped in EventsOf(boots, j) <==> Stamps(boots[j])
  {
    StampMeansProvisioned(boots[j]);
  }

  /** Over every life that ends with a sentinel: one start, and only one, stamped it; that start had
      provisioned everything its config asked for, and no later start does anything. */
  lemma OneProvisioning(boots: seq<Boot>) returns (i: nat)
    requires SentinelAfter(boots)
    ensures i < |boots| && Provisioned(boots[i].cfg, EventsOf(boots, i))
    ensures forall j :: 0 <= j < i ==> Stamped !in EventsOf(boots, j)
    ensures forall j :: i < j < |boots| ==> EventsOf(boots, j) == []
  {
    SentinelIffStamped(boots);
    var marks := seq(|boots|, k requires 0 <= k < |boots| => Stamps(boots[k]));
    var some :| 0 <= some < |boots| && Stamps(boots[some]);
    assert marks[some];
    i := FirstTrue(marks);
    assert forall j :: 0 <= j < i ==> marks[j] == Stamps(boots[j]);
    SentinelAt(boots, i, i);
    StampMeansProvisioned(boots[i]);
    forall j | 0 <= j < i ensures Stamped !in EventsOf(boots, j) {
      SentinelAt(boots, i, j);
      Unstamped(boots, j);
    }
    forall j | i < j < |boots| ensures EventsOf(boots, j) == [] {
      SentinelAt(boots, i, j);
    }
  }

  /** Without a sentinel, no start stamped one and each of them was free to do its whole pass. */
  lemma {:induction false} NoSentinelNoStamp(boots: seq<Boot>, j: nat)
    requires !SentinelAfter(boots) && j < |boots|
    ensures Stamped !in EventsOf(boots, j) && EventsOf(boots, j) == Events(false, boots[j])
  {
    SentinelIffStamped(boots);
    SentinelIffStamped(boots[..j]);
    Unstamped(boots, j);
  }

  // ----- the runner itself -----

  class Machine {
    var sentinel: bool
    var log: seq<Event>
    var power: nat

    constructor ()
      ensures !sentinel && log == [] && power == 0
    {
      sentinel, log, power := false, [], 0;
    }

    method Emit(e: Event) returns (alive: bool)
      modifies this
      ensures sentinel == old(sentinel)
      ensures alive == (old(power) > 0)
      ensures alive ==> log == old(log) + [e] && power == old(power) - 1
      ensures !alive ==> log == old(log) && power == 0
    {
      alive := power > 0;
      if alive { log, power := log + [e], power - 1; }
    }

    method TouchSentinel(a: Answers) returns (exit: Exit)
      requires !sentinel
      modifies this
      ensures log == old(log) + Cut(StampEvents(a), old(power))
      ensures sentinel == (Stamped in Cut(StampEvents(a), old(power)))
      ensures exit == Result(StampEvents(a), a, old(power))
    {
      if !a.stamped { return Error; }
      var alive := Emit(Stamped);
      if !alive { return PowerLoss; }
      sentinel := true;
      exit := if a.stampError then Error else Done;
    }

    method RunScript(c: Config, a: Answers) returns (exit: Exit)
      requires !sentinel
      modifies this
      ensures log == old(log) + Cut(ScriptEvents(c, a), old(power))
      ensures sentinel == (Stamped in Cut(ScriptEvents(c, a), old(power)))
      ensures exit == Result(ScriptEvents(c, a), a, old(power))
    {
      if WantsScript(c) {
        var alive := Emit(ScriptStarted);
        if !alive { return PowerLoss; }
        alive := Emit(ScriptEnded(a.script));
        if !alive { return PowerLoss; }
        if !a.script { return Error; }
      }
      exit := TouchSentinel(a);
    }

    method PullAndRun(b: Boot) returns (exit: Exit)
      requires !sentinel && WantsPull(b.cfg) && CanPull(b.cfg, b.wiring)
      modifies this
      ensures log == old(log) + Cut(PullEvents(b), old(power))
      ensures sentinel == (Stamped in Cut(PullEvents(b), old(power)))
      ensures exit == Result(PullEvents(b), b.answers, old(power))
    {
      var alive := Emit(PullStarted);
      if !alive { return PowerLoss; }
      alive := Emit(PullEnded(b.answers.pull));
      if !alive { return PowerLoss; }
      if !b.answers.pull { return Error; }
      exit := RunScript(b.cfg, b.answers);
    }

    /** Runner.Run. Whatever happens, the log grows by the events of this start and no others; what it
        reports is settled by how its plan ends. */
    method Run(b: Boot) returns (exit: Exit)
      requires power == b.fuse
      modifies this
      ensures log == old(log) + Events(old(sentinel), b)
      ensures sentinel == (old(sentinel) || Stamped in Events(old(sentinel), b))
      ensures exit == ExitOf(old(sentinel), b)
    {
      if sentinel { return Done; }
      if IsEmpty(b.cfg) {
        exit := TouchSentinel(b.answers);
        return;
      }
      if !b.answers.workDir { return Error; }
      if !WantsPull(b.cfg) {
        exit := RunScript(b.cfg, b.answers);
        return;
      }
      if !CanPull(b.cfg, b.wiring) { return Error; }
      exit := PullAndRun(b);
    }

    /** A start with power for `b.fuse` events. */
    method Start(b: Boot)
      modifies this
      ensures log == old(log) + Events(old(sentinel), b) && sentinel == (old(sentinel) || Stamps(b))
    {
      power := b.fuse;
      var exit := Run(b);
      StampMeansProvisioned(b);
    }

    /** One start after another, from a machine never provisioned: the lives the lemmas speak of. */
    method Live(boots: seq<Boot>)
      requires !sentinel && log == []
      modifies this
      ensures sentinel == SentinelAfter(boots) && log == AllEvents(boots)
    {
      var i := 0;
      while i < |boots|
        invariant 0 <= i <= |boots|
        invariant sentinel == SentinelAfter(boots[..i]) && log == AllEvents(boots[..i])
      {
        LifeSnoc(boots, i);
        Start(boots[i]);
        i := i + 1;
      }
      assert boots[..i] == boots;
    }
  }
}
